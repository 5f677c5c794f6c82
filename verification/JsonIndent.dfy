/** The lines of a pretty-printed text: how far each is indented, and which arrays stand on one line. */
module JsonIndent {
  import opened JsonValue
  import opened JsonText
  import opened JsonWriter
  import opened JsonLayout

  // ---------- Reading a text from left to right ----------

  /** Outside of string literals, inside one, or inside one after a backslash; and the brackets and braces open. */
  datatype Place = Outside(open: int) | Inside(open: int) | Escaped(open: int)

  predicate Closes(c: char) {
    c == ']' || c == '}'
  }

  function Next(p: Place, c: char): (q: Place) {
    match p
    case Outside(n) =>
      if c == '"' then Inside(n)
      else if c == '[' || c == '{' then Outside(n + 1)
      else if Closes(c) then Outside(n - 1)
      else p
    case Inside(n) => if c == '\\' then Escaped(n) else if c == '"' then Outside(n) else p
    case Escaped(n) => Inside(n)
  }

  function After(p: Place, t: string): (q: Place)
    decreases |t|
  {
    if t == "" then p else After(Next(p, t[0]), t[1..])
  }

  /** The number of blanks at the start of a text. */
  function Lead(t: string): (n: nat)
    ensures n <= |t| && (n < |t| ==> t[n] != ' ') && forall i: nat :: i < n ==> t[i] == ' '
  {
    if t == "" || t[0] != ' ' then 0 else 1 + Lead(t[1..])
  }

  /**
    The rest of a text begins a line as it should where n brackets and braces
    are open: three blanks for each, one fewer if the line begins by closing.
  */
  predicate Begins(n: int, rest: string) {
    var k := Lead(rest);
    k < |rest| && k == 3 * (if Closes(rest[k]) then n - 1 else n)
  }

  /** Every line feed is outside of string literals and begins a line as it should. */
  predicate Laid(p: Place, t: string)
    decreases |t|
  {
    t == "" || ((t[0] == '\n' ==> p.Outside? && Begins(p.open, t[1..])) && Laid(Next(p, t[0]), t[1..]))
  }

  lemma {:induction false} AfterConcat(p: Place, a: string, b: string)
    ensures After(p, a + b) == After(After(p, a), b)
    decreases |a|
  {
    if a == "" {
      assert a + b == b;
    } else {
      assert (a + b)[1..] == a[1..] + b;
      AfterConcat(Next(p, a[0]), a[1..], b);
    }
  }

  lemma AfterTwo(p: Place, a: char, b: char)
    ensures After(p, [a, b]) == Next(Next(p, a), b)
  {
    assert [a, b][1..] == [b] && [b][1..] == "";
    assert After(Next(p, a), [b]) == Next(Next(p, a), b);
  }

  lemma {:induction false} LeadConcat(a: string, b: string)
    requires Lead(a) < |a|
    ensures Lead(a + b) == Lead(a)
  {
    if a[0] == ' ' {
      assert (a + b)[1..] == a[1..] + b;
      LeadConcat(a[1..], b);
    }
  }

  lemma BeginsConcat(n: int, a: string, b: string)
    requires Begins(n, a)
    ensures Begins(n, a + b)
  {
    LeadConcat(a, b);
  }

  lemma {:induction false} LaidConcat(p: Place, a: string, b: string)
    requires Laid(p, a) && Laid(After(p, a), b)
    ensures Laid(p, a + b)
    decreases |a|
  {
    if a == "" {
      assert a + b == b;
    } else {
      assert (a + b)[1..] == a[1..] + b;
      LaidConcat(Next(p, a[0]), a[1..], b);
      if a[0] == '\n' {
        BeginsConcat(p.open, a[1..], b);
      }
    }
  }

  /** What Laid says, position by position. */
  lemma {:induction false} LaidAt(p: Place, t: string, i: nat)
    requires Laid(p, t) && i < |t| && t[i] == '\n'
    ensures After(p, t[..i]).Outside? && Begins(After(p, t[..i]).open, t[i + 1..])
    decreases |t|
  {
    if i == 0 {
      assert t[..0] == "" && t[1..] == t[0 + 1..];
    } else {
      LaidAt(Next(p, t[0]), t[1..], i - 1);
      assert t[..i][0] == t[0] && t[..i][1..] == t[1..][..i - 1] && t[1..][i..] == t[i + 1..];
    }
  }

  // ---------- Pieces of a text ----------

  /** Read at depth d outside of literals, t leads back there, and its lines begin as they should. */
  predicate Neat(t: string, d: int) {
    Laid(Outside(d), t) && After(Outside(d), t) == Outside(d)
  }

  lemma NeatConcat(a: string, b: string, d: int)
    requires Neat(a, d) && Neat(b, d)
    ensures Neat(a + b, d)
  {
    LaidConcat(Outside(d), a, b);
    AfterConcat(Outside(d), a, b);
  }

  lemma {:induction false} LaidUnbroken(p: Place, t: string)
    requires '\n' !in t
    ensures Laid(p, t)
    decreases |t|
  {
    if t != "" {
      LaidUnbroken(Next(p, t[0]), t[1..]);
    }
  }

  /** A piece without quotes, brackets, braces or line feeds. */
  lemma {:induction false} NeatPlain(t: string, d: int)
    requires forall i: nat :: i < |t| ==> Next(Outside(d), t[i]) == Outside(d) && t[i] != '\n'
    ensures Neat(t, d)
    decreases |t|
  {
    if t != "" {
      NeatPlain(t[1..], d);
    }
  }

  lemma NeatWord(t: string, d: int)
    requires IsWordText(t)
    ensures Neat(t, d)
  {
    NeatPlain(t, d);
  }

  lemma EscapeNeat(c: char, d: int)
    ensures '\n' !in Escape(c) && After(Inside(d), Escape(c)) == Inside(d)
  {
    var t := Escape(c);
    if |t| == 1 {
      assert t[1..] == "";
    } else if |t| == 2 {
      AfterTwo(Inside(d), t[0], t[1]);
    } else {
      assert t == [t[0], t[1]] + ([t[2], t[3]] + [t[4], t[5]]);
      AfterTwo(Inside(d), t[0], t[1]);
      AfterTwo(Inside(d), t[2], t[3]);
      AfterTwo(Inside(d), t[4], t[5]);
      AfterConcat(Inside(d), [t[2], t[3]], [t[4], t[5]]);
      AfterConcat(Inside(d), [t[0], t[1]], [t[2], t[3]] + [t[4], t[5]]);
    }
  }

  lemma {:induction false} EscapedNeat(s: string, d: int)
    ensures '\n' !in EscapeAll(s) && After(Inside(d), EscapeAll(s)) == Inside(d)
  {
    if s != "" {
      EscapeNeat(s[0], d);
      EscapedNeat(s[1..], d);
      AfterConcat(Inside(d), Escape(s[0]), EscapeAll(s[1..]));
    }
  }

  lemma QuoteNeat(s: string, d: int)
    ensures Neat(Quote(s), d) && '\n' !in Quote(s)
  {
    EscapedNeat(s, d);
    AfterConcat(Outside(d), "\"", EscapeAll(s));
    AfterConcat(Outside(d), "\"" + EscapeAll(s), "\"");
    LaidUnbroken(Outside(d), Quote(s));
  }

  lemma EmptyNeat(l: char, r: char, d: int)
    requires (l == '[' || l == '{') && Closes(r)
    ensures Neat([l, r], d) && [l] + "" + [r] == [l, r]
  {
    LaidUnbroken(Outside(d), [l, r]);
    AfterTwo(Outside(d), l, r);
  }

  lemma FlatNeat(v: Value, d: int, realText: real -> string)
    requires IsFlat(v) && PrintsWords(realText)
    ensures Neat(Compact(v, realText), d) && '\n' !in Compact(v, realText)
  {
    match v
    case Arr(items) => CompactArray(items, realText); EmptyNeat('[', ']', d);
    case Obj(ms) => CompactObject(ms, realText); EmptyNeat('{', '}', d);
    case Null => FlattenOne("null"); NeatWord("null", d);
    case Bool(b) => FlattenOne(if b then "true" else "false"); NeatWord(if b then "true" else "false", d);
    case Int(i) => FlattenOne(IntText(i)); IntTextIsWord(i); NeatWord(IntText(i), d);
    case UInt(u) => FlattenOne(IntText(u)); IntTextIsWord(u); NeatWord(IntText(u), d);
    case Real(x) => FlattenOne(realText(x)); NeatWord(realText(x), d);
    case Str(s) => FlattenOne(Quote(s)); QuoteNeat(s, d);
  }

  lemma {:induction false} LeadBlanks(n: nat, t: string)
    requires t != "" && t[0] != ' '
    ensures Lead(Blanks(n) + t) == n && (Blanks(n) + t)[n] == t[0]
  {
    if n > 0 {
      assert (Blanks(n) + t)[1..] == Blanks(n - 1) + t;
      LeadBlanks(n - 1, t);
    } else {
      assert Blanks(0) + t == t;
    }
  }

  /** A new line and what stands on it. */
  lemma NeatLine(d: nat, n: int, t: string)
    requires t != "" && t[0] != ' ' && d == (if Closes(t[0]) then n - 1 else n) && Laid(Outside(n), t)
    ensures Laid(Outside(n), NewLine(d) + t) && After(Outside(n), NewLine(d) + t) == After(Outside(n), t)
  {
    var w := Blanks(3 * d);
    var line := NewLine(d) + t;
    assert line[0] == '\n' && line[1..] == w + t;
    LeadBlanks(3 * d, t);
    NeatPlain(w, n);
    LaidConcat(Outside(n), w, t);
    AfterConcat(Outside(n), w, t);
  }

  // ---------- The text of a value ----------

  lemma {:induction false} JoinedNeat(items: seq<Value>, d: int, realText: real -> string)
    requires items != [] && AllFlat(items) && PrintsWords(realText)
    ensures Neat(Joined(items, realText), d) && '\n' !in Joined(items, realText)
  {
    FlatNeat(items[0], d, realText);
    if |items| == 1 {
      assert Compact(items[0], realText) + "" == Compact(items[0], realText);
    } else {
      var rest := Joined(items[1..], realText);
      JoinedNeat(items[1..], d, realText);
      NeatPlain(", ", d);
      NeatConcat(", ", rest, d);
      NeatConcat(Compact(items[0], realText), ", " + rest, d);
    }
  }

  /** What stands between an opening and a closing bracket. */
  lemma NeatBracket(open: string, t: string, close: string, d: int)
    requires open != "" && (open[0] == '[' || open[0] == '{') && (open[1..] == "" || open[1..] == " ")
    requires Neat(t, d + 1) && Laid(Outside(d + 1), close) && After(Outside(d + 1), close) == Outside(d)
    ensures Neat(open + (t + close), d)
  {
    LaidConcat(Outside(d + 1), t, close);
    AfterConcat(Outside(d + 1), t, close);
    NeatPlain(open[1..], d + 1);
    LaidConcat(Outside(d), open, t + close);
    AfterConcat(Outside(d), open, t + close);
  }

  lemma NeatClosing(d: nat, c: char)
    requires Closes(c)
    ensures Laid(Outside(d + 1), NewLine(d) + [c]) && After(Outside(d + 1), NewLine(d) + [c]) == Outside(d)
  {
    assert [c][1..] == "";
    NeatLine(d, d + 1, [c]);
  }

  lemma OneLineNeat(items: seq<Value>, d: int, realText: real -> string)
    requires items != [] && AllFlat(items) && PrintsWords(realText)
    ensures Neat(OneLine(items, realText), d) && '\n' !in OneLine(items, realText)
  {
    JoinedNeat(items, d + 1, realText);
    LaidUnbroken(Outside(d + 1), " ]");
    AfterTwo(Outside(d + 1), ' ', ']');
    assert " ]" == [' ', ']'] && "[ "[1..] == " ";
    NeatBracket("[ ", Joined(items, realText), " ]", d);
  }

  /** The text of a value at depth d is laid out as it should be where d brackets and braces are open. */
  lemma {:induction false} StyledNeat(v: Value, d: nat, realText: real -> string)
    requires PrintsWords(realText)
    ensures Neat(Styled(v, d, realText), d)
    decreases v, 0
  {
    if IsFlat(v) {
      FlatNeat(v, d, realText);
    } else {
      match v
      case Arr(items) =>
        if Fits(items, realText) {
          OneLineNeat(items, d, realText);
        } else {
          LinesNeat(items, d + 1, realText);
          NeatClosing(d, ']');
          NeatBracket("[", Lines(items, d + 1, realText), NewLine(d) + "]", d);
        }
      case Obj(ms) =>
        MemberLinesNeat(ms, d + 1, realText);
        NeatClosing(d, '}');
        NeatBracket("{", MemberLines(ms, d + 1, realText), NewLine(d) + "}", d);
      case _ =>
    }
  }

  /** An element, and what follows it, on a new line. */
  lemma NeatItem(d: nat, t: string, more: string)
    requires Neat(t, d) && Tight(t) && !Closes(t[0]) && Neat(more, d)
    ensures Neat(NewLine(d) + (t + more), d)
  {
    NeatConcat(t, more, d);
    NeatLine(d, d, t + more);
  }

  lemma NeatMore(rest: string, d: int)
    requires Neat(rest, d)
    ensures Neat("," + rest, d)
  {
    assert ","[1..] == "";
    NeatPlain(",", d);
    NeatConcat(",", rest, d);
  }

  lemma {:induction false} LinesNeat(items: seq<Value>, d: nat, realText: real -> string)
    requires items != [] && PrintsWords(realText)
    ensures Neat(Lines(items, d, realText), d)
    decreases items, 1
  {
    var first := Styled(items[0], d, realText);
    StyledNeat(items[0], d, realText);
    StyledTight(items[0], d, realText);
    StyledOpens(items[0], d, realText);
    if |items| == 1 {
      NeatItem(d, first, "");
    } else {
      LinesNeat(items[1..], d, realText);
      NeatMore(Lines(items[1..], d, realText), d);
      NeatItem(d, first, "," + Lines(items[1..], d, realText));
    }
  }

  lemma {:induction false} MemberLinesNeat(ms: seq<Member>, d: nat, realText: real -> string)
    requires ms != [] && PrintsWords(realText)
    ensures Neat(MemberLines(ms, d, realText), d)
    decreases ms, 1
  {
    var first := MemberLine(ms[0], d, realText);
    MemberLineNeat(ms[0], d, realText);
    if |ms| == 1 {
      NeatItem(d, first, "");
    } else {
      MemberLinesNeat(ms[1..], d, realText);
      NeatMore(MemberLines(ms[1..], d, realText), d);
      NeatItem(d, first, "," + MemberLines(ms[1..], d, realText));
    }
  }

  lemma {:induction false} MemberLineNeat(m: Member, d: nat, realText: real -> string)
    requires PrintsWords(realText)
    ensures var t := MemberLine(m, d, realText); Neat(t, d) && Tight(t) && !Closes(t[0])
    decreases m, 1
  {
    QuoteNeat(m.name, d);
    NeatPlain(" : ", d);
    StyledNeat(m.value, d, realText);
    StyledTight(m.value, d, realText);
    NeatConcat(" : ", Styled(m.value, d, realText), d);
    NeatConcat(Quote(m.name), " : " + Styled(m.value, d, realText), d);
  }

  lemma StyledOpens(v: Value, d: nat, realText: real -> string)
    requires PrintsWords(realText)
    ensures var t := Styled(v, d, realText); t != "" && !Closes(t[0])
  {
    if IsFlat(v) {
      FlatOpens(v, realText);
    }
  }

  lemma FlatOpens(v: Value, realText: real -> string)
    requires IsFlat(v) && PrintsWords(realText)
    ensures var t := Compact(v, realText); t != "" && !Closes(t[0])
  {
    match v
    case Arr(items) => CompactArray(items, realText);
    case Obj(ms) => CompactObject(ms, realText);
    case Null => FlattenOne("null");
    case Bool(b) => FlattenOne(if b then "true" else "false");
    case Int(i) => IntTextIsWord(i); FlattenOne(IntText(i));
    case UInt(u) => IntTextIsWord(u); FlattenOne(IntText(u));
    case Real(x) => FlattenOne(realText(x));
    case Str(s) => FlattenOne(Quote(s));
  }

  // ---------- The number of lines ----------

  /** A container that does not stand on one line has a line for each element and one to close it. */
  function Breaks(v: Value, realText: real -> string): (n: nat)
    decreases v, 0
  {
    match v
    case Arr(items) => if items == [] || Fits(items, realText) then 0 else ItemBreaks(items, realText) + 1
    case Obj(ms) => if ms == [] then 0 else MemberBreaks(ms, realText) + 1
    case _ => 0
  }

  function ItemBreaks(items: seq<Value>, realText: real -> string): (n: nat)
    decreases items, 1
  {
    if items == [] then 0 else 1 + Breaks(items[0], realText) + ItemBreaks(items[1..], realText)
  }

  function MemberBreaks(ms: seq<Member>, realText: real -> string): (n: nat)
    decreases ms, 1
  {
    if ms == [] then 0 else 1 + Breaks(ms[0].value, realText) + MemberBreaks(ms[1..], realText)
  }

  function Feeds(t: string): (n: nat) {
    if t == "" then 0 else (if t[0] == '\n' then 1 else 0) + Feeds(t[1..])
  }

  lemma {:induction false} FeedsConcat(a: string, b: string)
    ensures Feeds(a + b) == Feeds(a) + Feeds(b)
  {
    if a == "" {
      assert a + b == b;
    } else {
      assert (a + b)[1..] == a[1..] + b;
      FeedsConcat(a[1..], b);
    }
  }

  lemma {:induction false} NoFeeds(t: string)
    requires '\n' !in t
    ensures Feeds(t) == 0
  {
    if t != "" {
      NoFeeds(t[1..]);
    }
  }

  lemma LineFeeds(d: nat, t: string)
    ensures Feeds(NewLine(d) + t) == 1 + Feeds(t)
  {
    var w := Blanks(3 * d);
    NoFeeds(w);
    FeedsConcat(w, t);
    assert (NewLine(d) + t)[0] == '\n' && (NewLine(d) + t)[1..] == w + t;
  }

  lemma ContainerFeeds(open: string, t: string, d: nat, close: string)
    requires '\n' !in open && '\n' !in close
    ensures Feeds(open + (t + (NewLine(d) + close))) == Feeds(t) + 1
  {
    NoFeeds(open);
    NoFeeds(close);
    LineFeeds(d, close);
    FeedsConcat(t, NewLine(d) + close);
    FeedsConcat(open, t + (NewLine(d) + close));
  }

  lemma {:induction false} StyledFeeds(v: Value, d: nat, realText: real -> string)
    requires PrintsWords(realText)
    ensures Feeds(Styled(v, d, realText)) == Breaks(v, realText)
    decreases v, 0
  {
    if IsFlat(v) {
      FlatNeat(v, d, realText);
      NoFeeds(Styled(v, d, realText));
    } else {
      match v
      case Arr(items) =>
        if Fits(items, realText) {
          OneLineNeat(items, d, realText);
          NoFeeds(OneLine(items, realText));
        } else {
          LinesFeeds(items, d + 1, realText);
          ContainerFeeds("[", Lines(items, d + 1, realText), d, "]");
        }
      case Obj(ms) =>
        MemberLinesFeeds(ms, d + 1, realText);
        ContainerFeeds("{", MemberLines(ms, d + 1, realText), d, "}");
      case _ =>
    }
  }

  lemma FirstFeeds(d: nat, t: string, rest: string)
    ensures Feeds(NewLine(d) + (t + rest)) == 1 + Feeds(t) + Feeds(rest)
    ensures Feeds("," + rest) == Feeds(rest)
  {
    LineFeeds(d, t + rest);
    FeedsConcat(t, rest);
    FeedsConcat(",", rest);
    NoFeeds(",");
  }

  lemma {:induction false} LinesFeeds(items: seq<Value>, d: nat, realText: real -> string)
    requires items != [] && PrintsWords(realText)
    ensures Feeds(Lines(items, d, realText)) == ItemBreaks(items, realText)
    decreases items, 1
  {
    var first := Styled(items[0], d, realText);
    StyledFeeds(items[0], d, realText);
    if |items| == 1 {
      FirstFeeds(d, first, "");
    } else {
      LinesFeeds(items[1..], d, realText);
      FirstFeeds(d, first, Lines(items[1..], d, realText));
      FirstFeeds(d, first, "," + Lines(items[1..], d, realText));
    }
  }

  lemma {:induction false} MemberLinesFeeds(ms: seq<Member>, d: nat, realText: real -> string)
    requires ms != [] && PrintsWords(realText)
    ensures Feeds(MemberLines(ms, d, realText)) == MemberBreaks(ms, realText)
    decreases ms, 1
  {
    var first := MemberLine(ms[0], d, realText);
    MemberLineFeeds(ms[0], d, realText);
    if |ms| == 1 {
      FirstFeeds(d, first, "");
    } else {
      MemberLinesFeeds(ms[1..], d, realText);
      FirstFeeds(d, first, MemberLines(ms[1..], d, realText));
      FirstFeeds(d, first, "," + MemberLines(ms[1..], d, realText));
    }
  }

  lemma {:induction false} MemberLineFeeds(m: Member, d: nat, realText: real -> string)
    requires PrintsWords(realText)
    ensures Feeds(MemberLine(m, d, realText)) == Breaks(m.value, realText)
    decreases m, 1
  {
    QuoteNeat(m.name, d);
    NoFeeds(Quote(m.name));
    NoFeeds(" : ");
    StyledFeeds(m.value, d, realText);
    FeedsConcat(" : ", Styled(m.value, d, realText));
    FeedsConcat(Quote(m.name), " : " + Styled(m.value, d, realText));
  }

  // ---------- The whole document ----------

  /** After every line feed but the last: three blanks for each open bracket or brace, one fewer to close one. */
  lemma DocumentIndented(v: Value, realText: real -> string, text: string, i: nat)
    requires PrintsWords(realText) && text == Styled(v, 0, realText) + "\n" && i < |text| - 1 && text[i] == '\n'
    ensures var p := After(Outside(0), text[..i]); p.Outside? && Begins(p.open, text[i + 1..])
  {
    var t := Styled(v, 0, realText);
    StyledNeat(v, 0, realText);
    LaidAt(Outside(0), t, i);
    assert text[..i] == t[..i] && text[i + 1..] == t[i + 1..] + "\n";
    BeginsConcat(After(Outside(0), t[..i]).open, t[i + 1..], "\n");
  }

  /** An array stands on one line exactly when all its elements are flat, it has fewer than 25, and there is room. */
  lemma OneLineIff(items: seq<Value>, d: nat, realText: real -> string)
    requires items != [] && PrintsWords(realText)
    ensures var t := Styled(Arr(items), d, realText);
            ('\n' !in t <==> AllFlat(items) && 3 * |items| < 74 && |OneLine(items, realText)| < 74) &&
            ('\n' !in t ==> t == OneLine(items, realText))
  {
    if Fits(items, realText) {
      OneLineNeat(items, d, realText);
    } else {
      var t := Styled(Arr(items), d, realText);
      assert t[1] == Lines(items, d + 1, realText)[0] == '\n';
    }
  }
}
