/**
  JSON text: the tokens of a value (sections 2 to 7 of RFC 8259) and a lexer
  that splits any text into tokens, independent of the reader.
*/
module JsonText {
  import opened JsonValue

  predicate IsSpace(c: char) {
    c == ' ' || c == '\t' || c == '\r' || c == '\n'
  }

  predicate IsPunct(c: char) {
    c == '{' || c == '}' || c == '[' || c == ']' || c == ',' || c == ':'
  }

  /** A character that can only continue a word: not white space, punctuation or a quote. */
  predicate IsWord(c: char) {
    !IsSpace(c) && !IsPunct(c) && c != '"'
  }

  /** The end of the string literal whose body is at i: past its closing quote, or the end of the text. */
  function StringEnd(s: string, i: nat): (e: nat)
    requires i <= |s|
    ensures i <= e <= |s|
    decreases |s| - i
  {
    if i == |s| then i
    else if s[i] == '"' then i + 1
    else if s[i] == '\\' && i + 1 < |s| then StringEnd(s, i + 2)
    else StringEnd(s, i + 1)
  }

  predicate StringCloses(s: string, i: nat)
    requires i <= |s|
    decreases |s| - i
  {
    if i == |s| then false
    else if s[i] == '"' then true
    else if s[i] == '\\' && i + 1 < |s| then StringCloses(s, i + 2)
    else StringCloses(s, i + 1)
  }

  function WordEnd(s: string, i: nat): (e: nat)
    requires i <= |s|
    ensures i <= e <= |s|
    ensures i < |s| && IsWord(s[i]) ==> i < e
    decreases |s| - i
  {
    if i < |s| && IsWord(s[i]) then WordEnd(s, i + 1) else i
  }

  /** The length of the token at the start of s. */
  function TokenLength(s: string): (n: nat)
    requires s != "" && !IsSpace(s[0])
    ensures 1 <= n <= |s|
  {
    if IsPunct(s[0]) then 1
    else if s[0] == '"' then StringEnd(s, 1)
    else WordEnd(s, 0)
  }

  /** The tokens of a text. */
  function Lex(s: string): (r: seq<string>)
    decreases |s|
  {
    if s == "" then []
    else if IsSpace(s[0]) then Lex(s[1..])
    else [s[..TokenLength(s)]] + Lex(s[TokenLength(s)..])
  }

  /** Every string literal of the text is closed. */
  predicate Complete(s: string)
    decreases |s|
  {
    if s == "" then true
    else if IsSpace(s[0]) then Complete(s[1..])
    else (s[0] == '"' ==> StringCloses(s, 1)) && Complete(s[TokenLength(s)..])
  }

  /** Nothing at the seam of two texts runs together. */
  predicate Separate(a: string, b: string) {
    a == "" || b == "" || !IsWord(a[|a| - 1]) || !IsWord(b[0])
  }

  lemma {:induction false} StringPrefix(a: string, b: string, i: nat)
    requires i <= |a| && StringCloses(a, i)
    ensures StringCloses(a + b, i) && StringEnd(a + b, i) == StringEnd(a, i)
    decreases |a| - i
  {
    if a[i] == '"' {
    } else if a[i] == '\\' && i + 1 < |a| {
      StringPrefix(a, b, i + 2);
    } else {
      StringPrefix(a, b, i + 1);
    }
  }

  lemma {:induction false} WordPrefix(a: string, b: string, i: nat)
    requires a != "" && i <= |a| && Separate(a, b) && (i == |a| ==> IsWord(a[i - 1]))
    ensures WordEnd(a + b, i) == WordEnd(a, i)
    decreases |a| - i
  {
    if i < |a| && IsWord(a[i]) {
      WordPrefix(a, b, i + 1);
    }
  }

  lemma LexSpace(s: string)
    requires s != "" && IsSpace(s[0])
    ensures Lex(s) == Lex(s[1..]) && Complete(s) == Complete(s[1..])
  {
  }

  lemma LexToken(s: string, n: nat)
    requires s != "" && !IsSpace(s[0]) && n == TokenLength(s)
    ensures Lex(s) == [s[..n]] + Lex(s[n..])
    ensures Complete(s) == ((s[0] == '"' ==> StringCloses(s, 1)) && Complete(s[n..]))
  {
  }

  /** A text whose literals are closed lexes the same whatever separate text follows. */
  lemma {:induction false} LexConcat(a: string, b: string)
    requires Complete(a) && Separate(a, b)
    ensures Lex(a + b) == Lex(a) + Lex(b)
    ensures Complete(a + b) == Complete(b)
    decreases |a|
  {
    if a == "" {
      assert a + b == b;
    } else if IsSpace(a[0]) {
      LexConcat(a[1..], b);
      ConcatSpace(a, b);
    } else {
      TokenPrefix(a, b);
      LexConcat(a[TokenLength(a)..], b);
      ConcatToken(a, b, TokenLength(a));
    }
  }

  lemma ConcatSpace(a: string, b: string)
    requires a != "" && IsSpace(a[0])
    ensures Lex(a + b) == Lex(a[1..] + b) && Complete(a + b) == Complete(a[1..] + b)
  {
    LexSpace(a + b);
    assert (a + b)[1..] == a[1..] + b;
  }

  lemma ConcatToken(a: string, b: string, n: nat)
    requires a != "" && !IsSpace(a[0]) && n == TokenLength(a) == TokenLength(a + b)
    requires Lex(a[n..] + b) == Lex(a[n..]) + Lex(b)
    requires a[0] == '"' ==> StringCloses(a + b, 1)
    ensures Lex(a + b) == Lex(a) + Lex(b)
    ensures Complete(a + b) == Complete(a[n..] + b)
  {
    LexToken(a, n);
    LexToken(a + b, n);
    assert (a + b)[..n] == a[..n] && (a + b)[n..] == a[n..] + b;
    TokensRegroup([a[..n]], Lex(a[n..]), Lex(b));
  }

  lemma TokensRegroup(a: seq<string>, b: seq<string>, c: seq<string>)
    ensures a + (b + c) == a + b + c
  {
  }

  lemma TokenPrefix(a: string, b: string)
    requires a != "" && !IsSpace(a[0]) && (a[0] == '"' ==> StringCloses(a, 1)) && Separate(a, b)
    ensures TokenLength(a + b) == TokenLength(a)
    ensures a[0] == '"' ==> StringCloses(a + b, 1)
    ensures Separate(a[TokenLength(a)..], b)
  {
    if a[0] == '"' {
      StringPrefix(a, b, 1);
    } else if !IsPunct(a[0]) {
      WordPrefix(a, b, 0);
    }
  }

  /** Decimal digits of a number, without leading zeros. */
  function Digits(n: nat): (r: string)
    ensures r != ""
  {
    (if n < 10 then "" else Digits(n / 10)) + [Digit(n % 10)]
  }

  function Digit(d: nat): (c: char)
    requires d < 10
    ensures '0' <= c <= '9'
  {
    '0' + d as char
  }

  function IntText(i: int): (r: string)
    ensures r != ""
  {
    if i < 0 then "-" + Digits(-i) else Digits(i)
  }

  function HexDigit(d: nat): (c: char)
    requires d < 16
    ensures '0' <= c <= '9' || 'A' <= c <= 'F'
  {
    if d < 10 then '0' + d as char else 'A' + (d - 10) as char
  }

  predicate IsControl(c: char) {
    0 < c as int <= 0x1f
  }

  /** One byte of a string as the writers print it. */
  function Escape(c: char): (r: string)
    ensures r != ""
  {
    if c == '"' then "\\\""
    else if c == '\\' then "\\\\"
    else if c == '\U{0008}' then "\\b"
    else if c == '\U{000C}' then "\\f"
    else if c == '\n' then "\\n"
    else if c == '\r' then "\\r"
    else if c == '\t' then "\\t"
    else if IsControl(c) then "\\u00" + [HexDigit(c as int / 16), HexDigit(c as int % 16)]
    else [c]
  }

  function EscapeAll(s: string): (r: string) {
    if s == "" then "" else Escape(s[0]) + EscapeAll(s[1..])
  }

  function Quote(s: string): (r: string) {
    "\"" + EscapeAll(s) + "\""
  }

  /** The tokens of a value, given how reals are printed. */
  function Tokens(v: Value, realText: real -> string): (r: seq<string>)
    ensures r != []
    decreases v, 0
  {
    match v
    case Null => ["null"]
    case Bool(b) => [if b then "true" else "false"]
    case Int(i) => [IntText(i)]
    case UInt(u) => [IntText(u)]
    case Real(x) => [realText(x)]
    case Str(s) => [Quote(s)]
    case Arr(items) => ["["] + ItemTokens(items, realText) + ["]"]
    case Obj(ms) => ["{"] + MemberTokens(ms, realText) + ["}"]
  }

  function ItemTokens(items: seq<Value>, realText: real -> string): (r: seq<string>)
    decreases items, 1
  {
    if items == [] then []
    else if |items| == 1 then Tokens(items[0], realText)
    else Tokens(items[0], realText) + [","] + ItemTokens(items[1..], realText)
  }

  function MemberTokens(ms: seq<Member>, realText: real -> string): (r: seq<string>)
    decreases ms, 1
  {
    if ms == [] then []
    else if |ms| == 1 then OneMember(ms[0], realText)
    else OneMember(ms[0], realText) + [","] + MemberTokens(ms[1..], realText)
  }

  function OneMember(m: Member, realText: real -> string): (r: seq<string>)
    decreases m, 1
  {
    [Quote(m.name), ":"] + Tokens(m.value, realText)
  }

  function Flatten(ts: seq<string>): (r: string) {
    if ts == [] then "" else ts[0] + Flatten(ts[1..])
  }

  lemma {:induction false} FlattenConcat(a: seq<string>, b: seq<string>)
    ensures Flatten(a + b) == Flatten(a) + Flatten(b)
  {
    if a == [] {
      assert a + b == b;
    } else {
      FlattenConcat(a[1..], b);
      assert (a + b)[0] == a[0] && (a + b)[1..] == a[1..] + b;
      assert a[0] + (Flatten(a[1..]) + Flatten(b)) == a[0] + Flatten(a[1..]) + Flatten(b);
    }
  }

  // ---------- Lexing what the writers print ----------

  /** A nonempty run of word characters. */
  predicate IsWordText(t: string) {
    t != "" && forall i: nat :: i < |t| ==> IsWord(t[i])
  }

  ghost predicate PrintsWords(realText: real -> string) {
    forall x :: IsWordText(realText(x))
  }

  /** One token, by itself. */
  ghost predicate IsToken(t: string) {
    Lex(t) == [t] && Complete(t)
  }

  lemma WordIsToken(t: string)
    requires IsWordText(t)
    ensures IsToken(t)
  {
    WordEnds(t, 0, |t|);
    LexToken(t, |t|);
    assert t[..|t|] == t && t[|t|..] == "";
  }

  lemma {:induction false} WordEnds(t: string, i: nat, e: nat)
    requires i <= e <= |t| && (forall k: nat :: i <= k < e ==> IsWord(t[k])) && (e < |t| ==> !IsWord(t[e]))
    ensures WordEnd(t, i) == e
    decreases e - i
  {
    if i < e {
      WordEnds(t, i + 1, e);
    }
  }

  lemma PunctIsToken(c: char)
    requires IsPunct(c)
    ensures IsToken([c])
  {
    LexToken([c], 1);
    assert [c][..1] == [c] && [c][1..] == "";
  }

  /** The end of a printed string is the quote the writer put there. */
  lemma {:induction false} EscapedEnd(t: string, i: nat, s: string, end: nat)
    requires i <= end < |t| && t[i..end] == EscapeAll(s) && t[end] == '"'
    ensures StringCloses(t, i) && StringEnd(t, i) == end + 1
    decreases |s|
  {
    if s != "" {
      var j := i + |Escape(s[0])|;
      SliceSplit(t, i, end, Escape(s[0]), EscapeAll(s[1..]));
      EscapedEnd(t, j, s[1..], end);
      EscapeSkips(t, i, j, s[0]);
    }
  }

  lemma SliceSplit(t: string, i: nat, k: nat, a: string, b: string)
    requires i <= k <= |t| && t[i..k] == a + b
    ensures i + |a| <= k && t[i..i + |a|] == a && t[i + |a|..k] == b
  {
    var u := t[i..k];
    assert t[i..i + |a|] == u[..|a|];
    assert t[i + |a|..k] == u[|a|..];
  }

  /** Scanning over one escaped byte stays inside the literal. */
  lemma EscapeSkips(t: string, i: nat, j: nat, c: char)
    requires i <= j <= |t| && t[i..j] == Escape(c)
    ensures StringCloses(t, i) == StringCloses(t, j) && StringEnd(t, i) == StringEnd(t, j)
  {
    var e := t[i..j];
    assert e[0] == t[i];
    if |e| == 2 {
      assert e[1] == t[i + 1];
    } else if |e| == 6 {
      assert e[2] == t[i + 2] && e[3] == t[i + 3] && e[4] == t[i + 4] && e[5] == t[i + 5];
      PlainSkips(t, i + 2);
      PlainSkips(t, i + 3);
      PlainSkips(t, i + 4);
      PlainSkips(t, i + 5);
    }
  }

  lemma PlainSkips(t: string, i: nat)
    requires i < |t| && t[i] != '"' && t[i] != '\\'
    ensures StringCloses(t, i) == StringCloses(t, i + 1) && StringEnd(t, i) == StringEnd(t, i + 1)
  {
  }

  lemma QuoteIsToken(s: string)
    ensures IsToken(Quote(s))
  {
    var t := Quote(s);
    assert t[1..|t| - 1] == EscapeAll(s);
    EscapedEnd(t, 1, s, |t| - 1);
    LexToken(t, |t|);
    assert t[..|t|] == t && t[|t|..] == "";
  }

  /** Two texts joined by a punctuation mark. */
  lemma LexJoin(a: string, c: char, b: string)
    requires Complete(a) && Complete(b) && IsPunct(c)
    ensures Lex(a + [c] + b) == Lex(a) + [[c]] + Lex(b) && Complete(a + [c] + b)
  {
    PunctIsToken(c);
    LexConcat(a, [c]);
    LexConcat(a + [c], b);
  }

  lemma DigitIsWord(d: nat)
    requires d < 10
    ensures IsWord(Digit(d))
  {
  }

  lemma {:induction false} DigitsAreWord(n: nat)
    ensures IsWordText(Digits(n))
  {
    DigitIsWord(n % 10);
    if n >= 10 {
      DigitsAreWord(n / 10);
    }
  }

  lemma IntTextIsWord(i: int)
    ensures IsWordText(IntText(i))
  {
    DigitsAreWord(if i < 0 then -i else i);
  }

  /** Each scalar is one token. */
  lemma ScalarIsToken(v: Value, realText: real -> string)
    requires PrintsWords(realText) && !v.Arr? && !v.Obj?
    ensures |Tokens(v, realText)| == 1 && IsToken(Tokens(v, realText)[0])
  {
    match v
    case Null => WordIsToken("null");
    case Bool(b) => WordIsToken(if b then "true" else "false");
    case Int(i) => IntTextIsWord(i); WordIsToken(IntText(i));
    case UInt(u) => IntTextIsWord(u); WordIsToken(IntText(u));
    case Real(x) => WordIsToken(realText(x));
    case Str(t) => QuoteIsToken(t);
  }

  /** The tokens of a value, printed without any white space, lex back to themselves. */
  lemma {:induction false} LexTokens(v: Value, realText: real -> string)
    requires PrintsWords(realText)
    ensures Lex(Flatten(Tokens(v, realText))) == Tokens(v, realText) && Complete(Flatten(Tokens(v, realText)))
    decreases v, 0
  {
    var t := Tokens(v, realText);
    match v
    case Arr(items) =>
      LexItems(items, realText);
      LexBracketed('[', ItemTokens(items, realText), ']');
    case Obj(ms) =>
      LexMembers(ms, realText);
      LexBracketed('{', MemberTokens(ms, realText), '}');
    case _ =>
      ScalarIsToken(v, realText);
      FlattenOne(t[0]);
      assert t == [t[0]];
  }

  lemma FlattenOne(t: string)
    ensures Flatten([t]) == t
  {
    assert [t][1..] == [] && t + "" == t;
  }

  lemma LexBracketed(l: char, ts: seq<string>, r: char)
    requires IsPunct(l) && IsPunct(r) && Lex(Flatten(ts)) == ts && Complete(Flatten(ts))
    ensures var all := [[l]] + ts + [[r]]; Lex(Flatten(all)) == all && Complete(Flatten(all))
    ensures Flatten([[l]] + ts + [[r]]) == [l] + Flatten(ts) + [r]
  {
    FlattenConcat([[l]] + ts, [[r]]);
    FlattenConcat([[l]], ts);
    FlattenOne([l]);
    FlattenOne([r]);
    LexJoin("", l, Flatten(ts));
    assert "" + [l] + Flatten(ts) == [l] + Flatten(ts);
    LexJoin([l] + Flatten(ts), r, "");
    assert [l] + Flatten(ts) + [r] + "" == [l] + Flatten(ts) + [r];
  }

  lemma LexListed(first: seq<string>, c: char, rest: seq<string>)
    requires IsPunct(c) && Lex(Flatten(first)) == first && Complete(Flatten(first))
    requires Lex(Flatten(rest)) == rest && Complete(Flatten(rest))
    ensures var all := first + [[c]] + rest; Lex(Flatten(all)) == all && Complete(Flatten(all))
    ensures Flatten(first + [[c]] + rest) == Flatten(first) + [c] + Flatten(rest)
  {
    FlattenConcat(first + [[c]], rest);
    FlattenConcat(first, [[c]]);
    FlattenOne([c]);
    LexJoin(Flatten(first), c, Flatten(rest));
  }

  lemma {:induction false} LexItems(items: seq<Value>, realText: real -> string)
    requires PrintsWords(realText)
    ensures var ts := ItemTokens(items, realText); Lex(Flatten(ts)) == ts && Complete(Flatten(ts))
    decreases items, 1
  {
    if items != [] {
      LexTokens(items[0], realText);
      if |items| > 1 {
        LexItems(items[1..], realText);
        LexListed(Tokens(items[0], realText), ',', ItemTokens(items[1..], realText));
      }
    }
  }

  lemma {:induction false} LexMembers(ms: seq<Member>, realText: real -> string)
    requires PrintsWords(realText)
    ensures var ts := MemberTokens(ms, realText); Lex(Flatten(ts)) == ts && Complete(Flatten(ts))
    decreases ms, 1
  {
    if ms != [] {
      LexTokens(ms[0].value, realText);
      LexMember(ms[0], realText);
      if |ms| > 1 {
        LexMembers(ms[1..], realText);
        LexListed(OneMember(ms[0], realText), ',', MemberTokens(ms[1..], realText));
      }
    }
  }

  lemma LexMember(m: Member, realText: real -> string)
    requires var ts := Tokens(m.value, realText); Lex(Flatten(ts)) == ts && Complete(Flatten(ts))
    ensures var ts := OneMember(m, realText); Lex(Flatten(ts)) == ts && Complete(Flatten(ts))
    ensures Flatten(OneMember(m, realText)) == Quote(m.name) + ":" + Flatten(Tokens(m.value, realText))
  {
    var ts := Tokens(m.value, realText);
    QuoteIsToken(m.name);
    FlattenOne(Quote(m.name));
    LexListed([Quote(m.name)], ':', ts);
    assert [Quote(m.name)] + [":"] + ts == [Quote(m.name), ":"] + ts;
  }
}
