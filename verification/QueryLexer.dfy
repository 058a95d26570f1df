/** lunr.QueryLexer: a query string is cut into lexemes by a state machine over two cursors. */
module QueryLexer {
  import NodeKey

  datatype Kind = FIELD | TERM | EDIT_DISTANCE | BOOST | PRESENCE

  datatype Lexeme = Lexeme(kind: Kind, str: string, start: nat, end: nat)

  const ESCAPE := '\\'

  /** String.slice: positions beyond the end count as the end. */
  function Slice(s: string, start: nat, end: nat): string {
    if start >= |s| || end <= start then "" else s[start..if end < |s| then end else |s|]
  }

  // ---------------------------------------------------------------- what lexing means

  /** A text without its escaping backslashes: each takes the next character as it is. */
  function Unescaped(s: string): string {
    if s == "" then ""
    else if s[0] == ESCAPE then (if |s| == 1 then "" else [s[1]] + Unescaped(s[2..]))
    else [s[0]] + Unescaped(s[1..])
  }

  /** What ends a text when it is not escaped. */
  predicate Ends(separator: char -> bool, c: char) {
    c != ESCAPE && (c == ':' || c == '~' || c == '^' || separator(c))
  }

  /** Where a text that reaches at least to i ends; behind the string after a final backslash. */
  function TextEnd(separator: char -> bool, s: string, i: nat): (e: nat)
    ensures i <= e && (i <= |s| + 1 ==> e <= |s| + 1) && (e < |s| ==> Ends(separator, s[e]))
    decreases |s| + 2 - i
  {
    if i >= |s| || Ends(separator, s[i]) then i
    else if s[i] == ESCAPE then TextEnd(separator, s, i + 2)
    else TextEnd(separator, s, i + 1)
  }

  function DigitEnd(s: string, i: nat): (e: nat)
    requires i <= |s|
    ensures i <= e <= |s| && (forall k :: i <= k < e ==> NodeKey.IsDigit(s[k])) && (e < |s| ==> !NodeKey.IsDigit(s[e]))
    decreases |s| - i
  {
    if i < |s| && NodeKey.IsDigit(s[i]) then DigitEnd(s, i + 1) else i
  }

  function Cut(kind: Kind, s: string, start: nat, end: nat): Lexeme {
    Lexeme(kind, Unescaped(Slice(s, start, end)), start, end)
  }

  /** A term, unless it is empty. */
  function Pending(s: string, start: nat, end: nat): seq<Lexeme> {
    if start < end then [Cut(TERM, s, start, end)] else []
  }

  /** The lexemes from position i on, where a new one begins. */
  function Lexemes(separator: char -> bool, s: string, i: nat): seq<Lexeme>
    decreases |s| + 2 - i
  {
    if i >= |s| then []
    else if s[i] == '+' || s[i] == '-' then
      [Cut(PRESENCE, s, i, i + 1)] + Lexemes(separator, s, i + 1)
    else
      var e := TextEnd(separator, s, i);
      if e >= |s| then Pending(s, i, e)
      else if s[e] == ':' then [Cut(FIELD, s, i, e)] + Lexemes(separator, s, e + 1)
      else if s[e] == '~' || s[e] == '^' then
        var d := DigitEnd(s, e + 1);
        Pending(s, i, e) + [Cut(if s[e] == '~' then EDIT_DISTANCE else BOOST, s, e + 1, d)] + Lexemes(separator, s, d)
      else
        Pending(s, i, e) + Lexemes(separator, s, e + 1)
  }

  /** The lexemes at a text that ends at e. */
  lemma LexemesOfText(separator: char -> bool, s: string, i: nat, e: nat)
    requires i < |s| && s[i] != '+' && s[i] != '-' && TextEnd(separator, s, i) == e
    ensures Lexemes(separator, s, i) ==
            if e >= |s| then Pending(s, i, e)
            else if s[e] == ':' then [Cut(FIELD, s, i, e)] + Lexemes(separator, s, e + 1)
            else if s[e] == '~' || s[e] == '^' then
              Pending(s, i, e) + LexemesOfNumber(separator, s, e)
            else Pending(s, i, e) + Lexemes(separator, s, e + 1)
  {
    hide Cut, TextEnd, DigitEnd, Pending, Slice, Unescaped;
  }

  lemma LexemesOfPresence(separator: char -> bool, s: string, i: nat)
    requires i < |s| && (s[i] == '+' || s[i] == '-')
    ensures Lexemes(separator, s, i) == [Cut(PRESENCE, s, i, i + 1)] + Lexemes(separator, s, i + 1)
  {
  }

  lemma LexemesAtEnd(separator: char -> bool, s: string, i: nat)
    ensures i >= |s| ==> Lexemes(separator, s, i) == []
  {
  }

  /** The lexemes from a modifier sign on. */
  function LexemesOfNumber(separator: char -> bool, s: string, e: nat): seq<Lexeme>
    requires e < |s|
  {
    [NumberAt(s, e)] + Lexemes(separator, s, DigitEnd(s, e + 1))
  }

  function NumberAt(s: string, e: nat): Lexeme
    requires e < |s|
  {
    Cut(if s[e] == '~' then EDIT_DISTANCE else BOOST, s, e + 1, DigitEnd(s, e + 1))
  }

  // ---------------------------------------------------------------- properties of the meaning

  /** Lexemes come in order, each from a stretch of the string behind position i. */
  predicate InOrder(ls: seq<Lexeme>, i: nat) {
    ls == [] || (i <= ls[0].start <= ls[0].end && InOrder(ls[1..], ls[0].end))
  }

  ghost predicate Inside(ls: seq<Lexeme>, p: nat) {
    exists l :: l in ls && l.start <= p < l.end
  }

  /** What may stand between lexemes. */
  predicate Skipped(separator: char -> bool, c: char) {
    c == ':' || c == '~' || c == '^' || separator(c)
  }

  /** A lexeme is its stretch of the string without the escaping backslashes. */
  predicate Shaped(s: string, l: Lexeme) {
    && l.str == Unescaped(Slice(s, l.start, l.end))
    && (l.kind.EDIT_DISTANCE? || l.kind.BOOST? ==> forall k :: 0 <= k < |l.str| ==> NodeKey.IsDigit(l.str[k]))
    && (l.kind.PRESENCE? ==> l.str == "+" || l.str == "-")
    && (l.kind.TERM? ==> l.start < l.end)
  }

  lemma {:induction false} UnescapedPlain(t: string)
    requires ESCAPE !in t
    ensures Unescaped(t) == t
  {
    if t != "" { UnescapedPlain(t[1..]); }
  }

  lemma NumberIsShaped(s: string, e: nat)
    requires e < |s|
    ensures Shaped(s, NumberAt(s, e))
  {
    hide Unescaped, DigitEnd;
    var d := DigitEnd(s, e + 1);
    UnescapedPlain(Slice(s, e + 1, d));
  }

  lemma SignIsShaped(s: string, i: nat)
    requires i < |s| && (s[i] == '+' || s[i] == '-')
    ensures Shaped(s, Cut(PRESENCE, s, i, i + 1))
  {
    UnescapedPlain(Slice(s, i, i + 1));
  }

  lemma {:induction false} LexemesAreShaped(separator: char -> bool, s: string, i: nat)
    ensures forall l :: l in Lexemes(separator, s, i) ==> Shaped(s, l)
    decreases |s| + 2 - i
  {
    hide Lexemes, TextEnd, DigitEnd, Unescaped, Slice;
    if i >= |s| {
      LexemesAtEnd(separator, s, i);
    } else if s[i] == '+' || s[i] == '-' {
      LexemesOfPresence(separator, s, i);
      LexemesAreShaped(separator, s, i + 1);
      SignIsShaped(s, i);
    } else {
      var e := TextEnd(separator, s, i);
      LexemesOfText(separator, s, i, e);
      if e < |s| && (s[e] == '~' || s[e] == '^') {
        LexemesAreShaped(separator, s, DigitEnd(s, e + 1));
        NumberIsShaped(s, e);
      } else if e < |s| {
        LexemesAreShaped(separator, s, e + 1);
      }
    }
  }

  /** A term or field without backslashes reaches over no separator and none of the three signs. */
  predicate Unbroken(separator: char -> bool, s: string, l: Lexeme) {
    (l.kind.TERM? || l.kind.FIELD?) && '\\' !in Slice(s, l.start, l.end) ==>
      l.str == Slice(s, l.start, l.end)
      && forall k :: 0 <= k < |l.str| ==> !separator(l.str[k]) && l.str[k] !in {':', '~', '^'}
  }

  lemma {:induction false} TextIsUnbroken(separator: char -> bool, s: string, i: nat, j: nat)
    requires i <= j <= |s| && '\\' !in s[i..j] && TextEnd(separator, s, i) >= j
    ensures forall k :: i <= k < j ==> !separator(s[k]) && s[k] !in {':', '~', '^'}
    decreases j - i
  {
    hide TextEnd;
    if i < j {
      TextEndAt(separator, s, i);
      assert s[i] in s[i..j] && s[i + 1..j] == s[i..j][1..];
      TextIsUnbroken(separator, s, i + 1, j);
    }
  }

  lemma CutIsUnbroken(separator: char -> bool, s: string, kind: Kind, i: nat)
    requires i < |s|
    ensures Unbroken(separator, s, Cut(kind, s, i, TextEnd(separator, s, i)))
  {
    hide TextEnd, Unescaped;
    var e := TextEnd(separator, s, i);
    var j := if e < |s| then e else |s|;
    if '\\' !in s[i..j] {
      TextIsUnbroken(separator, s, i, j);
      UnescapedPlain(Slice(s, i, e));
    }
  }

  /** Separators and the signs in front of numbers and behind fields end a text. */
  lemma {:induction false} LexemesAreUnbroken(separator: char -> bool, s: string, i: nat)
    ensures forall l :: l in Lexemes(separator, s, i) ==> Unbroken(separator, s, l)
    decreases |s| + 2 - i
  {
    hide Lexemes, TextEnd, DigitEnd, Unescaped, Slice;
    if i >= |s| {
      LexemesAtEnd(separator, s, i);
    } else if s[i] == '+' || s[i] == '-' {
      LexemesOfPresence(separator, s, i);
      LexemesAreUnbroken(separator, s, i + 1);
    } else {
      var e := TextEnd(separator, s, i);
      LexemesOfText(separator, s, i, e);
      CutIsUnbroken(separator, s, TERM, i);
      CutIsUnbroken(separator, s, FIELD, i);
      if e < |s| && (s[e] == '~' || s[e] == '^') {
        LexemesAreUnbroken(separator, s, DigitEnd(s, e + 1));
      } else if e < |s| {
        LexemesAreUnbroken(separator, s, e + 1);
      }
    }
  }

  lemma {:induction false} LexemesInOrder(separator: char -> bool, s: string, i: nat)
    ensures InOrder(Lexemes(separator, s, i), i)
    decreases |s| + 2 - i
  {
    hide Lexemes, TextEnd, DigitEnd, InOrder, Pending;
    if i >= |s| {
      LexemesAtEnd(separator, s, i);
      NoneInOrder(i);
    } else if s[i] == '+' || s[i] == '-' {
      LexemesOfPresence(separator, s, i);
      LexemesInOrder(separator, s, i + 1);
      PutBefore(Cut(PRESENCE, s, i, i + 1), Lexemes(separator, s, i + 1), i, i + 1);
    } else {
      var e := TextEnd(separator, s, i);
      LexemesOfText(separator, s, i, e);
      if e >= |s| {
        NoneInOrder(e);
        PendingBefore(s, i, e, [], e);
        assert Pending(s, i, e) + [] == Pending(s, i, e);
      } else if s[e] == '~' || s[e] == '^' {
        var d := DigitEnd(s, e + 1);
        LexemesInOrder(separator, s, d);
        PutBefore(NumberAt(s, e), Lexemes(separator, s, d), e, d);
        PendingBefore(s, i, e, LexemesOfNumber(separator, s, e), e);
      } else {
        LexemesInOrder(separator, s, e + 1);
        PutBefore(Cut(FIELD, s, i, e), Lexemes(separator, s, e + 1), i, e + 1);
        PendingBefore(s, i, e, Lexemes(separator, s, e + 1), e + 1);
      }
    }
  }

  lemma NoneInOrder(i: nat)
    ensures InOrder([], i)
  {
  }

  lemma PutBefore(l: Lexeme, ls: seq<Lexeme>, i: nat, j: nat)
    requires i <= l.start <= l.end <= j && InOrder(ls, j)
    ensures InOrder([l] + ls, i)
  {
    assert ([l] + ls)[1..] == ls;
  }

  lemma PendingBefore(s: string, i: nat, e: nat, ls: seq<Lexeme>, j: nat)
    requires i <= e <= j && InOrder(ls, j)
    ensures InOrder(Pending(s, i, e) + ls, i)
  {
    if i < e { PutBefore(Cut(TERM, s, i, e), ls, i, j); } else { assert Pending(s, i, e) + ls == ls; }
  }

  lemma InsideEither(a: seq<Lexeme>, b: seq<Lexeme>, p: nat)
    ensures Inside(a + b, p) <==> Inside(a, p) || Inside(b, p)
  {
    assert forall l :: l in a + b <==> l in a || l in b;
  }

  lemma InsideOne(l: Lexeme, p: nat)
    ensures Inside([l], p) <==> l.start <= p < l.end
  {
    assert l in [l];
  }

  lemma InsidePending(s: string, i: nat, e: nat, p: nat)
    ensures Inside(Pending(s, i, e), p) <==> i <= p < e
  {
    if i < e { InsideOne(Cut(TERM, s, i, e), p); }
  }

  /** Nothing but separators and the three signs is left out. */
  lemma {:induction false} OnlySignsAreSkipped(separator: char -> bool, s: string, i: nat, p: nat)
    requires i <= p < |s|
    ensures Inside(Lexemes(separator, s, i), p) || Skipped(separator, s[p])
    decreases |s| + 2 - i
  {
    hide Lexemes, TextEnd, DigitEnd, Slice, Unescaped, Inside, Pending;
    if s[i] == '+' || s[i] == '-' {
      LexemesOfPresence(separator, s, i);
      InsideEither([Cut(PRESENCE, s, i, i + 1)], Lexemes(separator, s, i + 1), p);
      InsideOne(Cut(PRESENCE, s, i, i + 1), p);
      if p > i { OnlySignsAreSkipped(separator, s, i + 1, p); }
    } else {
      var e := TextEnd(separator, s, i);
      LexemesOfText(separator, s, i, e);
      InsidePending(s, i, e, p);
      if e < |s| && (s[e] == '~' || s[e] == '^') {
        var d := DigitEnd(s, e + 1);
        InsideEither(Pending(s, i, e), LexemesOfNumber(separator, s, e), p);
        InsideEither([NumberAt(s, e)], Lexemes(separator, s, d), p);
        InsideOne(NumberAt(s, e), p);
        if p >= d { OnlySignsAreSkipped(separator, s, d, p); }
      } else if e < |s| {
        InsideEither([Cut(FIELD, s, i, e)], Lexemes(separator, s, e + 1), p);
        InsideOne(Cut(FIELD, s, i, e), p);
        InsideEither(Pending(s, i, e), Lexemes(separator, s, e + 1), p);
        if p > e { OnlySignsAreSkipped(separator, s, e + 1, p); }
      }
    }
  }

  /** A text with a backslash before every character. */
  function Escaped(t: string): string {
    if t == "" then "" else [ESCAPE, t[0]] + Escaped(t[1..])
  }

  lemma {:induction false} EscapedIsText(separator: char -> bool, a: string, t: string)
    ensures TextEnd(separator, a + Escaped(t), |a|) == |a + Escaped(t)|
    ensures Unescaped(Escaped(t)) == t
    decreases |t|
  {
    if t != "" {
      var b := [ESCAPE, t[0]];
      assert a + Escaped(t) == (a + b) + Escaped(t[1..]);
      EscapedIsText(separator, a + b, t[1..]);
      assert Escaped(t)[2..] == Escaped(t[1..]);
    }
  }

  /** Whatever its characters, and whatever separates terms, a term can be written so that it is read back. */
  lemma EscapingWorks(separator: char -> bool, t: string)
    requires t != ""
    ensures Lexemes(separator, Escaped(t), 0) == [Lexeme(TERM, t, 0, |Escaped(t)|)]
  {
    hide TextEnd;
    EscapedIsText(separator, "", t);
    assert "" + Escaped(t) == Escaped(t);
    assert Slice(Escaped(t), 0, |Escaped(t)|) == Escaped(t);
  }

  // ---------------------------------------------------------------- cutting out the backslashes

  /** The slices between the given positions, joined: what sliceString makes of them. */
  function Joined(s: string, start: nat, escapes: seq<nat>, end: nat): string
    decreases |escapes|
  {
    if escapes == [] then Slice(s, start, end)
    else Slice(s, start, escapes[0]) + Joined(s, escapes[0] + 1, escapes[1..], end)
  }

  /** No backslash at the end is left without its character. */
  predicate Complete(t: string) {
    t == "" || (if t[0] == ESCAPE then |t| >= 2 && Complete(t[2..]) else Complete(t[1..]))
  }

  lemma {:induction false} UnescapedOneMore(t: string, c: char)
    requires Complete(t) && c != ESCAPE
    ensures Complete(t + [c]) && Unescaped(t + [c]) == Unescaped(t) + [c]
    decreases |t|
  {
    if t != "" {
      var k := if t[0] == ESCAPE then 2 else 1;
      assert (t + [c])[k..] == t[k..] + [c];
      UnescapedOneMore(t[k..], c);
    }
  }

  lemma {:induction false} UnescapedEscape(t: string, u: string)
    requires Complete(t) && |u| <= 1
    ensures Unescaped(t + [ESCAPE] + u) == Unescaped(t) + u && (u != "" ==> Complete(t + [ESCAPE] + u))
    decreases |t|
  {
    if t != "" {
      var k := if t[0] == ESCAPE then 2 else 1;
      assert (t + [ESCAPE] + u)[k..] == t[k..] + [ESCAPE] + u;
      UnescapedEscape(t[k..], u);
    } else {
      assert (t + [ESCAPE] + u)[1..] == u;
      assert u != "" ==> (t + [ESCAPE] + u)[2..] == "" && u == [u[0]];
    }
  }

  lemma SliceOneMore(s: string, start: nat, end: nat)
    requires start <= end < |s|
    ensures Slice(s, start, end + 1) == Slice(s, start, end) + [s[end]]
  {
  }

  lemma JoinedFirst(s: string, start: nat, escapes: seq<nat>, end: nat)
    ensures Joined(s, start, escapes, end) ==
            if escapes == [] then Slice(s, start, end)
            else Slice(s, start, escapes[0]) + Joined(s, escapes[0] + 1, escapes[1..], end)
  {
  }

  lemma Associates(a: string, b: string, c: string)
    ensures a + (b + c) == (a + b) + c
  {
  }

  lemma {:induction false} JoinedOneMore(s: string, start: nat, escapes: seq<nat>, end: nat)
    requires start <= end < |s| && forall k :: 0 <= k < |escapes| ==> escapes[k] < end
    ensures Joined(s, start, escapes, end + 1) == Joined(s, start, escapes, end) + [s[end]]
    decreases |escapes|
  {
    hide Slice, Joined;
    JoinedFirst(s, start, escapes, end);
    JoinedFirst(s, start, escapes, end + 1);
    if escapes == [] {
      SliceOneMore(s, start, end);
    } else {
      JoinedOneMore(s, escapes[0] + 1, escapes[1..], end);
      Associates(Slice(s, start, escapes[0]), Joined(s, escapes[0] + 1, escapes[1..], end), [s[end]]);
    }
  }

  lemma {:induction false} JoinedEscape(s: string, start: nat, escapes: seq<nat>, end: nat)
    requires start <= end < |s| && forall k :: 0 <= k < |escapes| ==> escapes[k] < end
    ensures Joined(s, start, escapes + [end], end + 2) == Joined(s, start, escapes, end) + Slice(s, end + 1, end + 2)
    decreases |escapes|
  {
    hide Slice, Joined;
    JoinedFirst(s, start, escapes, end);
    JoinedFirst(s, start, escapes + [end], end + 2);
    if escapes == [] {
      JoinedFirst(s, end + 1, [], end + 2);
    } else {
      assert (escapes + [end])[1..] == escapes[1..] + [end];
      JoinedEscape(s, escapes[0] + 1, escapes[1..], end);
      Associates(Slice(s, start, escapes[0]), Joined(s, escapes[0] + 1, escapes[1..], end), Slice(s, end + 1, end + 2));
    }
  }

  /** The positions noted so far are those of the escaping backslashes between start and end. */
  ghost predicate Notes(s: string, start: nat, escapes: seq<nat>, end: nat) {
    && start <= end <= |s| + 1
    && (forall k :: 0 <= k < |escapes| ==> start <= escapes[k] < end)
    && Joined(s, start, escapes, end) == Unescaped(Slice(s, start, end))
    && (end <= |s| ==> Complete(Slice(s, start, end)))
  }

  lemma NotesCharacter(s: string, start: nat, escapes: seq<nat>, end: nat)
    requires Notes(s, start, escapes, end) && end < |s| && s[end] != ESCAPE
    ensures Notes(s, start, escapes, end + 1)
  {
    assert Slice(s, start, end + 1) == Slice(s, start, end) + [s[end]];
    UnescapedOneMore(Slice(s, start, end), s[end]);
    JoinedOneMore(s, start, escapes, end);
  }

  lemma NotesEscape(s: string, start: nat, escapes: seq<nat>, end: nat)
    requires Notes(s, start, escapes, end) && end < |s| && s[end] == ESCAPE
    ensures Notes(s, start, escapes + [end], end + 2)
  {
    hide Joined, Unescaped, Complete;
    var t, u := Slice(s, start, end), Slice(s, end + 1, end + 2);
    assert Slice(s, start, end + 2) == t + [ESCAPE] + u;
    UnescapedEscape(t, u);
    JoinedEscape(s, start, escapes, end);
  }

  lemma NotesNothing(s: string, i: nat)
    requires i <= |s| + 1
    ensures Notes(s, i, [], i)
  {
  }

  lemma SomethingNoted(s: string, start: nat, escapes: seq<nat>, end: nat)
    requires Notes(s, start, escapes, end) && escapes != []
    ensures start < end
  {
    assert escapes[0] in escapes;
  }

  lemma NothingNoted(s: string, start: nat, escapes: seq<nat>)
    requires Notes(s, start, escapes, start)
    ensures escapes == []
  {
    hide Notes;
    if escapes != [] { SomethingNoted(s, start, escapes, start); }
  }

  lemma {:induction false} NotesDigits(s: string, start: nat, end: nat)
    requires start <= end <= |s| && forall k :: start <= k < end ==> NodeKey.IsDigit(s[k])
    ensures Notes(s, start, [], end)
    decreases end
  {
    hide Notes;
    if start == end {
      NotesNothing(s, start);
    } else {
      NotesDigits(s, start, end - 1);
      NotesCharacter(s, start, [], end - 1);
    }
  }

  lemma TextEndAt(separator: char -> bool, s: string, i: nat)
    ensures TextEnd(separator, s, i) ==
            if i >= |s| || Ends(separator, s[i]) then i
            else if s[i] == ESCAPE then TextEnd(separator, s, i + 2)
            else TextEnd(separator, s, i + 1)
  {
  }

  lemma NotesBounds(s: string, start: nat, escapes: seq<nat>, end: nat)
    requires Notes(s, start, escapes, end)
    ensures start <= end <= |s| + 1
  {
  }

  // ---------------------------------------------------------------- the machine

  /** The state functions; Stop stands for a state function that returns nothing. */
  datatype State = LexText | LexField | LexTerm | LexEditDistance | LexBoost | LexEOS | Stop

  datatype Next = EOS | Character(c: char)

  class Lexer {
    const str: string
    const separator: char -> bool
    var lexemes: seq<Lexeme>
    var pos: nat
    var start: nat
    var escapeCharPositions: seq<nat>

    constructor (str: string, separator: char -> bool)
      ensures this.str == str && this.separator == separator
      ensures lexemes == [] && pos == 0 && start == 0 && escapeCharPositions == []
    {
      this.str, this.separator, lexemes, pos, start, escapeCharPositions := str, separator, [], 0, 0, [];
    }

    /** A text from start to end, not begun by a presence sign, that stops at end. */
    ghost predicate Reads(end: nat)
      reads this
    {
      && Notes(str, start, escapeCharPositions, end)
      && start < |str| && str[start] != '+' && str[start] != '-'
      && TextEnd(separator, str, start) == end
    }

    /** Together with what is to come, the lexemes are those of the whole string. */
    ghost predicate Valid(state: State)
      reads this
    {
      var all := Lexemes(separator, str, 0);
      start <= |str| + 1 &&
      match state
      case LexText =>
        start == pos && escapeCharPositions == [] && all == lexemes + Lexemes(separator, str, start)
      case LexField =>
        0 < pos <= |str| && str[pos - 1] == ':' && Reads(pos - 1) && all == lexemes + Lexemes(separator, str, start)
      case LexTerm =>
        && 0 < pos <= |str| && str[pos - 1] != ':' && str[pos - 1] != '~' && str[pos - 1] != '^'
        && Reads(pos - 1) && all == lexemes + Lexemes(separator, str, start)
      case LexEditDistance =>
        start == pos < |str| && escapeCharPositions == [] && str[pos] == '~'
            && all == lexemes + LexemesOfNumber(separator, str, pos)
      case LexBoost =>
        start == pos < |str| && escapeCharPositions == [] && str[pos] == '^'
            && all == lexemes + LexemesOfNumber(separator, str, pos)
      case LexEOS =>
        Notes(str, start, escapeCharPositions, pos) && all == lexemes + Pending(str, start, pos)
      case Stop =>
        all == lexemes
    }

    method SliceString() returns (s: string)
      modifies this`escapeCharPositions
      ensures s == Joined(str, start, old(escapeCharPositions), pos) && escapeCharPositions == []
    {
      hide Slice, Joined;
      var subSlices: string := "";
      var sliceStart := start;
      for i := 0 to |escapeCharPositions|
        invariant escapeCharPositions == old(escapeCharPositions)
        invariant subSlices + Joined(str, sliceStart, escapeCharPositions[i..], pos) ==
                    Joined(str, start, escapeCharPositions, pos)
      {
        var sliceEnd := escapeCharPositions[i];
        JoinedFirst(str, sliceStart, escapeCharPositions[i..], pos);
        Associates(subSlices, Slice(str, sliceStart, sliceEnd),
                   Joined(str, sliceEnd + 1, escapeCharPositions[i..][1..], pos));
        assert escapeCharPositions[i..][1..] == escapeCharPositions[i + 1..];
        subSlices := subSlices + Slice(str, sliceStart, sliceEnd);
        sliceStart := sliceEnd + 1;
      }
      JoinedFirst(str, sliceStart, [], pos);
      assert escapeCharPositions[|escapeCharPositions|..] == [];
      s := subSlices + Slice(str, sliceStart, pos);
      escapeCharPositions := [];
    }

    method Emit(kind: Kind)
      requires Notes(str, start, escapeCharPositions, pos)
      modifies this
      ensures lexemes == old(lexemes) + [Cut(kind, str, old(start), pos)]
      ensures start == pos == old(pos) && escapeCharPositions == []
    {
      var s := SliceString();
      lexemes := lexemes + [Lexeme(kind, s, start, pos)];
      start := pos;
    }

    method EscapeCharacter()
      requires pos > 0
      modifies this`pos, this`escapeCharPositions
      ensures escapeCharPositions == old(escapeCharPositions) + [old(pos) - 1] && pos == old(pos) + 1
    {
      escapeCharPositions := escapeCharPositions + [pos - 1];
      pos := pos + 1;
    }

    method Next() returns (n: Next)
      modifies this`pos
      ensures old(pos) >= |str| ==> n == EOS && pos == old(pos)
      ensures old(pos) < |str| ==> n == Character(str[old(pos)]) && pos == old(pos) + 1
    {
      if pos >= |str| { return EOS; }
      n := Character(str[pos]);
      pos := pos + 1;
    }

    /** Moves start to pos, over the character there if nothing has been read since start. */
    method Ignore()
      modifies this`pos, this`start
      ensures pos == (if old(start == pos) then old(pos) + 1 else old(pos)) && start == pos
    {
      if start == pos { pos := pos + 1; }
      start := pos;
    }

    method AcceptDigitRun()
      requires pos <= |str|
      modifies this`pos
      ensures pos == DigitEnd(str, old(pos))
    {
      var n := Next();
      while n.Character? && NodeKey.IsDigit(n.c)
        invariant pos <= |str| && DigitEnd(str, if n.EOS? then pos else pos - 1) == DigitEnd(str, old(pos))
        invariant if n.EOS? then pos == |str| else pos > 0 && n.c == str[pos - 1]
        decreases |str| - pos, n.Character?
      {
        n := Next();
      }
      if n.Character? { pos := pos - 1; }
    }

    method LexField() returns (next: State)
      requires Valid(State.LexField)
      modifies this
      ensures next == State.LexText && Valid(next) && start > old(start)
    {
      hide Lexemes, Notes, TextEnd;
      LexemesOfText(separator, str, start, pos - 1);
      NotesBounds(str, start, escapeCharPositions, pos - 1);
      pos := pos - 1;
      Emit(FIELD);
      Ignore();
      next := State.LexText;
    }

    method LexTerm() returns (next: State)
      requires Valid(State.LexTerm)
      modifies this
      ensures (next == State.LexText || next == Stop) && Valid(next) && start > old(start)
    {
      hide Lexemes, Notes, TextEnd;
      LexemesOfText(separator, str, start, pos - 1);
      NotesBounds(str, start, escapeCharPositions, pos - 1);
      if pos - start > 1 {
        pos := pos - 1;
        Emit(TERM);
      } else {
        NothingNoted(str, start, escapeCharPositions);
      }
      Ignore();
      LexemesAtEnd(separator, str, pos);
      next := if pos < |str| then State.LexText else Stop;
    }

    method LexEditDistance() returns (next: State)
      requires Valid(State.LexEditDistance)
      modifies this
      ensures next == State.LexText && Valid(next) && start > old(start)
    {
      hide Lexemes, Notes;
      Ignore();
      AcceptDigitRun();
      NotesDigits(str, start, pos);
      Emit(EDIT_DISTANCE);
      next := State.LexText;
    }

    method LexBoost() returns (next: State)
      requires Valid(State.LexBoost)
      modifies this
      ensures next == State.LexText && Valid(next) && start > old(start)
    {
      hide Lexemes, Notes;
      Ignore();
      AcceptDigitRun();
      NotesDigits(str, start, pos);
      Emit(BOOST);
      next := State.LexText;
    }

    method LexEOS() returns (next: State)
      requires Valid(State.LexEOS)
      modifies this
      ensures next == Stop && Valid(next) && start >= old(start)
    {
      hide Lexemes;
      if pos - start > 0 { Emit(TERM); }
      next := Stop;
    }

    /** What is read so far becomes a term if there is any. */
    method EmitPending()
      requires Notes(str, start, escapeCharPositions, pos)
      modifies this
      ensures lexemes == old(lexemes) + Pending(str, old(start), pos)
      ensures start == pos == old(pos) && escapeCharPositions == []
    {
      hide Lexemes;
      NotesBounds(str, start, escapeCharPositions, pos);
      if pos - start > 0 {
        Emit(TERM);
      } else {
        NothingNoted(str, start, escapeCharPositions);
      }
    }

    /** Reads up to something that is not text. */
    method LexText() returns (next: State)
      requires Valid(State.LexText)
      modifies this
      ensures Valid(next) && start >= old(start) && (next == State.LexText ==> start > old(start))
    {
      hide Lexemes, Notes, TextEnd, LexemesOfNumber, Cut;
      ghost var first := start;
      NotesNothing(str, start);
      LexemesAtEnd(separator, str, start);
      while true
        invariant start == first && Notes(str, start, escapeCharPositions, pos) && start <= pos
                    && lexemes == old(lexemes)
        invariant pos > start ==> start < |str| && str[start] != '+' && str[start] != '-'
        invariant TextEnd(separator, str, start) == TextEnd(separator, str, pos)
        decreases |str| + 1 - pos
      {
        TextEndAt(separator, str, pos);
        ghost var here := pos;
        var n := Next();
        if n.EOS? {
          if pos > start { LexemesOfText(separator, str, start, here); }
          return State.LexEOS;
        }
        if n.c == ESCAPE {
          NotesEscape(str, start, escapeCharPositions, here);
          EscapeCharacter();
          continue;
        }
        if n.c == ':' { return State.LexField; }
        if n.c == '~' {
          LexemesOfText(separator, str, start, here);
          pos := pos - 1;
          EmitPending();
          return State.LexEditDistance;
        }
        if n.c == '^' {
          LexemesOfText(separator, str, start, here);
          pos := pos - 1;
          EmitPending();
          return State.LexBoost;
        }
        NotesCharacter(str, start, escapeCharPositions, here);
        if n.c == '+' && pos - start == 1 {
          LexemesOfPresence(separator, str, start);
          Emit(PRESENCE);
          return State.LexText;
        }
        if n.c == '-' && pos - start == 1 {
          LexemesOfPresence(separator, str, start);
          Emit(PRESENCE);
          return State.LexText;
        }
        if separator(n.c) { return State.LexTerm; }
      }
    }

    /** The machine stops on every string, and its lexemes are those the string means. */
    method Run()
      requires lexemes == [] && pos == 0 && start == 0 && escapeCharPositions == []
      modifies this
      ensures lexemes == Lexemes(separator, str, 0)
    {
      var state := State.LexText;
      while state != Stop
        invariant Valid(state)
        decreases |str| + 1 - start, if state == State.LexText then 2 else if state == Stop then 0 else 1
      {
        match state
        case LexText => state := LexText();
        case LexField => state := LexField();
        case LexTerm => state := LexTerm();
        case LexEditDistance => state := LexEditDistance();
        case LexBoost => state := LexBoost();
        case LexEOS => state := LexEOS();
      }
    }
  }
}
