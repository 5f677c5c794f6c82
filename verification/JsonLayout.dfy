/** The layout of the pretty printer: the exact text of a value, and how its lines are indented. */
module JsonLayout {
  import opened JsonValue
  import opened JsonText
  import opened JsonWriter

  const RIGHT_MARGIN: nat := 74
  const INDENT_SIZE: nat := 3

  // ---------- The text ----------

  /** A value that is printed as one piece: a scalar or an empty container. */
  predicate IsFlat(v: Value) {
    match v
    case Arr(items) => items == []
    case Obj(ms) => ms == []
    case _ => true
  }

  predicate AllFlat(items: seq<Value>) {
    forall i: nat :: i < |items| ==> IsFlat(items[i])
  }

  function Blanks(n: nat): (r: string) {
    seq(n, _ => ' ')
  }

  /** A new line at depth d. */
  function NewLine(d: nat): (r: string) {
    "\n" + Blanks(INDENT_SIZE * d)
  }

  /** The elements one after the other. */
  function Joined(items: seq<Value>, realText: real -> string): (r: string)
    requires items != []
  {
    Compact(items[0], realText) + if |items| == 1 then "" else ", " + Joined(items[1..], realText)
  }

  /** An array on one line. */
  function OneLine(items: seq<Value>, realText: real -> string): (r: string)
    requires items != []
  {
    "[ " + (Joined(items, realText) + " ]")
  }

  /** All elements are flat, and there is room for the array on one line. */
  predicate Fits(items: seq<Value>, realText: real -> string)
    requires items != []
  {
    AllFlat(items) && 3 * |items| < RIGHT_MARGIN && |OneLine(items, realText)| < RIGHT_MARGIN
  }

  /** The text of a value at depth d, wherever on the line it begins. */
  function Styled(v: Value, d: nat, realText: real -> string): (r: string)
    decreases v, 0
  {
    match v
    case Arr(items) =>
      if items == [] then Compact(v, realText)
      else if Fits(items, realText) then OneLine(items, realText)
      else "[" + (Lines(items, d + 1, realText) + (NewLine(d) + "]"))
    case Obj(ms) =>
      if ms == [] then Compact(v, realText)
      else "{" + (MemberLines(ms, d + 1, realText) + (NewLine(d) + "}"))
    case _ => Compact(v, realText)
  }

  /** The elements of an array, each on lines of its own. */
  function Lines(items: seq<Value>, d: nat, realText: real -> string): (r: string)
    requires items != []
    decreases items, 1
  {
    NewLine(d) + (Styled(items[0], d, realText) + if |items| == 1 then "" else "," + Lines(items[1..], d, realText))
  }

  /** The members of an object, each on lines of its own. */
  function MemberLines(ms: seq<Member>, d: nat, realText: real -> string): (r: string)
    requires ms != []
    decreases ms, 1
  {
    NewLine(d) + (MemberLine(ms[0], d, realText) + if |ms| == 1 then "" else "," + MemberLines(ms[1..], d, realText))
  }

  function MemberLine(m: Member, d: nat, realText: real -> string): (r: string)
    decreases m, 1
  {
    Quote(m.name) + (" : " + Styled(m.value, d, realText))
  }

  // ---------- Where a text begins and ends ----------

  /** Neither the first nor the last character is white space. */
  predicate Tight(t: string) {
    t != "" && !IsSpace(t[0]) && !IsSpace(t[|t| - 1])
  }

  lemma FlatTight(v: Value, realText: real -> string)
    requires IsFlat(v) && PrintsWords(realText)
    ensures Tight(Compact(v, realText))
  {
    match v
    case Arr(items) => CompactArray(items, realText);
    case Obj(ms) => CompactObject(ms, realText);
    case Null => FlattenOne("null");
    case Bool(b) => FlattenOne(if b then "true" else "false");
    case Int(i) => IntTextIsWord(i); FlattenOne(IntText(i));
    case UInt(u) => IntTextIsWord(u); FlattenOne(IntText(u));
    case Real(x) => FlattenOne(realText(x));
    case Str(s) => FlattenOne(Quote(s));
  }

  lemma StyledTight(v: Value, d: nat, realText: real -> string)
    requires PrintsWords(realText)
    ensures Tight(Styled(v, d, realText))
  {
    if IsFlat(v) {
      FlatTight(v, realText);
    }
  }

  // ---------- The tokens of the text ----------

  predicate AllBlank(w: string) {
    forall i: nat :: i < |w| ==> IsSpace(w[i])
  }

  lemma {:induction false} LexBlank(w: string)
    requires AllBlank(w)
    ensures Lex(w) == [] && Complete(w)
  {
    if w != "" {
      LexBlank(w[1..]);
    }
  }

  /** White space after a text adds no token. */
  lemma AppendBlank(a: string, w: string)
    requires Complete(a) && AllBlank(w)
    ensures Lex(a + w) == Lex(a) && Complete(a + w)
  {
    LexBlank(w);
    LexConcat(a, w);
  }

  lemma LeadBlank(w: string, t: string)
    requires AllBlank(w) && Complete(t)
    ensures Lex(w + t) == Lex(t) && Complete(w + t)
  {
    LexBlank(w);
    LexConcat(w, t);
  }

  /** A text of the tokens ts: every literal in it is closed. */
  ghost predicate Spelt(t: string, ts: seq<string>) {
    Complete(t) && Lex(t) == ts
  }

  lemma SpeltConcat(a: string, ts: seq<string>, b: string, us: seq<string>)
    requires Spelt(a, ts) && Spelt(b, us) && Separate(a, b)
    ensures Spelt(a + b, ts + us)
  {
    LexConcat(a, b);
  }

  /** A mark with or without a blank on either side is one token. */
  lemma MarkSpelt(t: string, c: char)
    requires IsPunct(c) && (t == [c] || t == [c, ' '] || t == [' ', c] || t == [' ', c, ' '])
    ensures Spelt(t, [[c]])
  {
    PunctIsToken(c);
    AppendBlank([c], " ");
    assert [c] + " " == [c, ' '];
    if t[0] == ' ' {
      LexSpace(t);
      assert t[1..] == [c] || t[1..] == [c, ' '];
    }
  }

  /** Two texts with a mark between them. */
  lemma MarkBetween(a: string, ts: seq<string>, mark: string, c: char, b: string, us: seq<string>)
    requires IsPunct(c) && (mark == [c] || mark == [c, ' '] || mark == [' ', c] || mark == [' ', c, ' '])
    requires Spelt(a, ts) && Spelt(b, us)
    ensures Spelt(a + (mark + b), ts + [[c]] + us)
  {
    MarkSpelt(mark, c);
    SpeltConcat(mark, [[c]], b, us);
    SpeltConcat(a, ts, mark + b, [[c]] + us);
    assert ts + ([[c]] + us) == ts + [[c]] + us;
  }

  lemma FlatSpelt(v: Value, realText: real -> string)
    requires PrintsWords(realText)
    ensures Spelt(Compact(v, realText), Tokens(v, realText))
  {
    LexTokens(v, realText);
  }

  lemma {:induction false} JoinedSpelt(items: seq<Value>, realText: real -> string)
    requires items != [] && PrintsWords(realText)
    ensures Spelt(Joined(items, realText), ItemTokens(items, realText))
  {
    var first := Compact(items[0], realText);
    FlatSpelt(items[0], realText);
    if |items| == 1 {
      assert first + "" == first;
    } else {
      JoinedSpelt(items[1..], realText);
      MarkBetween(first, Tokens(items[0], realText), ", ", ',', Joined(items[1..], realText),
                  ItemTokens(items[1..], realText));
    }
  }

  lemma BracketSpelt(open: string, l: char, t: string, ts: seq<string>, close: string, r: char)
    requires IsPunct(l) && IsPunct(r) && (open == [l] || open == [l, ' ']) && Spelt(t, ts)
    requires Spelt(close, [[r]]) && close != "" && !IsWord(close[0])
    ensures Spelt(open + (t + close), [[l]] + ts + [[r]])
  {
    SpeltConcat(t, ts, close, [[r]]);
    MarkSpelt(open, l);
    SpeltConcat(open, [[l]], t + close, ts + [[r]]);
    assert [[l]] + (ts + [[r]]) == [[l]] + ts + [[r]];
  }

  lemma ClosingSpelt(d: nat, r: char)
    requires IsPunct(r)
    ensures Spelt(NewLine(d) + [r], [[r]]) && NewLine(d) + [r] != "" && !IsWord((NewLine(d) + [r])[0])
  {
    MarkSpelt([r], r);
    LeadBlank(NewLine(d), [r]);
  }

  /** The text of a value has the tokens of the value. */
  lemma {:induction false} StyledSpelt(v: Value, d: nat, realText: real -> string)
    requires PrintsWords(realText)
    ensures Spelt(Styled(v, d, realText), Tokens(v, realText))
    decreases v, 0
  {
    if IsFlat(v) {
      FlatSpelt(v, realText);
    } else {
      match v
      case Arr(items) =>
        if Fits(items, realText) {
          JoinedSpelt(items, realText);
          MarkSpelt(" ]", ']');
          BracketSpelt("[ ", '[', Joined(items, realText), ItemTokens(items, realText), " ]", ']');
        } else {
          LinesSpelt(items, d + 1, realText);
          ClosingSpelt(d, ']');
          BracketSpelt("[", '[', Lines(items, d + 1, realText), ItemTokens(items, realText), NewLine(d) + "]", ']');
        }
      case Obj(ms) =>
        MemberLinesSpelt(ms, d + 1, realText);
        ClosingSpelt(d, '}');
        BracketSpelt("{", '{', MemberLines(ms, d + 1, realText), MemberTokens(ms, realText), NewLine(d) + "}", '}');
      case _ =>
    }
  }

  lemma {:induction false} LinesSpelt(items: seq<Value>, d: nat, realText: real -> string)
    requires items != [] && PrintsWords(realText)
    ensures Spelt(Lines(items, d, realText), ItemTokens(items, realText))
    decreases items, 1
  {
    var first := Styled(items[0], d, realText);
    StyledSpelt(items[0], d, realText);
    if |items| == 1 {
      assert first + "" == first;
      LeadBlank(NewLine(d), first);
    } else {
      var rest := Lines(items[1..], d, realText);
      LinesSpelt(items[1..], d, realText);
      MarkBetween(first, Tokens(items[0], realText), ",", ',', rest, ItemTokens(items[1..], realText));
      LeadBlank(NewLine(d), first + ("," + rest));
    }
  }

  lemma {:induction false} MemberLinesSpelt(ms: seq<Member>, d: nat, realText: real -> string)
    requires ms != [] && PrintsWords(realText)
    ensures Spelt(MemberLines(ms, d, realText), MemberTokens(ms, realText))
    decreases ms, 1
  {
    var first := MemberLine(ms[0], d, realText);
    MemberLineSpelt(ms[0], d, realText);
    if |ms| == 1 {
      assert first + "" == first;
      LeadBlank(NewLine(d), first);
    } else {
      var rest := MemberLines(ms[1..], d, realText);
      MemberLinesSpelt(ms[1..], d, realText);
      MarkBetween(first, OneMember(ms[0], realText), ",", ',', rest, MemberTokens(ms[1..], realText));
      LeadBlank(NewLine(d), first + ("," + rest));
    }
  }

  lemma {:induction false} MemberLineSpelt(m: Member, d: nat, realText: real -> string)
    requires PrintsWords(realText)
    ensures Spelt(MemberLine(m, d, realText), OneMember(m, realText))
    decreases m, 1
  {
    QuoteIsToken(m.name);
    StyledSpelt(m.value, d, realText);
    MarkBetween(Quote(m.name), [Quote(m.name)], " : ", ':', Styled(m.value, d, realText), Tokens(m.value, realText));
    assert [Quote(m.name)] + [":"] + Tokens(m.value, realText) == OneMember(m, realText);
  }
}
