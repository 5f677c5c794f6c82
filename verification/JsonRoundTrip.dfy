/** Reading back what was written: any text with the tokens of a value parses to that value. */
module JsonRoundTrip {
  import opened JsonValue
  import opened JsonText
  import opened JsonReader

  // ---------- Tokens ----------

  lemma {:induction false} LexSkipsSpaces(s: string)
    ensures Lex(SkipSpaces(s)) == Lex(s)
  {
    if s != "" && IsSpace(s[0]) {
      LexSkipsSpaces(s[1..]);
      LexSpace(s);
    }
  }

  /** The first token of a text is at its first non-blank. */
  lemma FirstToken(s: string, w: string, more: seq<string>) returns (t: string)
    requires Lex(s) == [w] + more
    ensures t == SkipSpaces(s) && t != "" && |w| == TokenLength(t) && t[..|w|] == w && Lex(t[|w|..]) == more
    ensures w != "" && w[0] == t[0]
  {
    LexSkipsSpaces(s);
    t := SkipSpaces(s);
    LexToken(t, TokenLength(t));
    assert ([w] + more)[0] == w && ([w] + more)[1..] == more;
  }

  lemma ReadPunct(s: string, c: char, more: seq<string>)
    requires Lex(s) == [[c]] + more && IsPunct(c)
    ensures ReadToken(s).kind == PunctKind(c) && Lex(ReadToken(s).rest) == more
    ensures SkipComments(s) == ReadToken(s)
  {
    var t := FirstToken(s, [c], more);
  }

  function PunctKind(c: char): (k: TokenType)
    requires IsPunct(c)
  {
    if c == '{' then ObjectBegin else if c == '}' then ObjectEnd
    else if c == '[' then ArrayBegin else if c == ']' then ArrayEnd
    else if c == ',' then ArraySeparator else MemberSeparator
  }

  lemma ReadQuote(s: string, str: string, more: seq<string>)
    requires Lex(s) == [Quote(str)] + more
    ensures ReadToken(s).kind == String && ReadToken(s).text == Quote(str) && Lex(ReadToken(s).rest) == more
    ensures SkipComments(s) == ReadToken(s)
  {
    var t := FirstToken(s, Quote(str), more);
    var n := |Quote(str)|;
    assert t[1..n - 1] == Quote(str)[1..n - 1] == EscapeAll(str);
    assert t[n - 1] == Quote(str)[n - 1];
    EscapedEnd(t, 1, str, n - 1);
  }

  /** A word is followed by something that is not part of it. */
  lemma FirstWord(s: string, w: string, more: seq<string>) returns (t: string)
    requires Lex(s) == [w] + more && IsWordText(w)
    ensures t == SkipSpaces(s) && |w| <= |t| && t[..|w|] == w && Lex(t[|w|..]) == more
    ensures |w| < |t| ==> !IsWord(t[|w|])
  {
    t := FirstToken(s, w, more);
    WordStops(t, 0);
  }

  lemma {:induction false} WordStops(s: string, i: nat)
    requires i <= |s|
    ensures WordEnd(s, i) < |s| ==> !IsWord(s[WordEnd(s, i)])
    decreases |s| - i
  {
    if i < |s| && IsWord(s[i]) {
      WordStops(s, i + 1);
    }
  }

  lemma ReadKeyword(s: string, w: string, more: seq<string>)
    requires Lex(s) == [w] + more && w in {"null", "true", "false"}
    ensures ReadToken(s).kind == (if w == "null" then NullToken else if w == "true" then True else False)
    ensures Lex(ReadToken(s).rest) == more
    ensures SkipComments(s) == ReadToken(s)
  {
    var t := FirstToken(s, w, more);
    assert t[1..|w|] == t[..|w|][1..] == w[1..];
  }

  lemma ReadNumber(s: string, w: string, more: seq<string>)
    requires Lex(s) == [w] + more && IsWordText(w) && (IsDigit(w[0]) || w[0] == '-')
    requires forall i: nat :: i < |w| ==> IsNumberChar(w[i])
    ensures ReadToken(s).kind == Number && ReadToken(s).text == w && Lex(ReadToken(s).rest) == more
    ensures SkipComments(s) == ReadToken(s)
  {
    var t := FirstWord(s, w, more);
    assert t[0] == t[..|w|][0];
    forall i: nat | i < |w| ensures IsNumberChar(t[i]) {
      assert t[i] == t[..|w|][i];
    }
    NumberRun(t, 1, |w|);
  }

  lemma {:induction false} NumberRun(t: string, i: nat, e: nat)
    requires i <= e <= |t| && (forall k: nat :: k < e ==> IsNumberChar(t[k])) && (e < |t| ==> !IsWord(t[e]))
    ensures NumberEnd(t, i) == e
    decreases e - i
  {
    if i < e {
      NumberRun(t, i + 1, e);
    }
  }

  // ---------- Strings ----------

  lemma HexRoundTrip(d: nat)
    requires d < 16
    ensures HexValue(HexDigit(d)) == Some(d)
  {
  }

  lemma {:induction false} DecodeEscaped(s: string)
    ensures DecodeBody(EscapeAll(s)) == Good(s)
  {
    if s != "" {
      var e, r := Escape(s[0]), EscapeAll(s[1..]);
      DecodeEscaped(s[1..]);
      DecodeOne(s[0], r);
      assert s == [s[0]] + s[1..];
    }
  }

  /** One escaped byte decodes to that byte. */
  lemma DecodeOne(c: char, r: string)
    ensures DecodeBody(Escape(c) + r) == Prepend([c], DecodeBody(r))
  {
    var b := Escape(c) + r;
    if |Escape(c)| == 6 {
      DecodeControl(c, r);
    } else if |Escape(c)| == 2 {
      assert b[0] == '\\' && b[2..] == r;
    } else {
      assert b[1..] == r;
    }
  }

  lemma DecodeControl(c: char, r: string)
    requires |Escape(c)| == 6
    ensures DecodeBody(Escape(c) + r) == Prepend([c], DecodeBody(r))
  {
    var b := Escape(c) + r;
    var h, l := c as int / 16, c as int % 16;
    var u := b[2..];
    assert u == "00" + [HexDigit(h), HexDigit(l)] + r;
    HexRoundTrip(h);
    HexRoundTrip(l);
    HexFour(u, h, l);
    assert b[2 + 4..] == r;
    assert Utf8(c as nat) == [c];
  }

  lemma HexFour(u: string, h: nat, l: nat)
    requires |u| >= 4 && h < 16 && l < 16 && u[..4] == "00" + [HexDigit(h), HexDigit(l)]
    ensures EscapeSequence(u) == Good(h * 16 + l)
  {
    HexRoundTrip(h);
    HexRoundTrip(l);
    assert u[0] == u[..4][0] && u[1] == u[..4][1] && u[2] == u[..4][2] && u[3] == u[..4][3];
    var u1, u2, u3 := u[1..], u[2..], u[3..];
    assert u1[1..] == u2 && u2[1..] == u3;
    assert Hex(u3, 1, h) == Hex(u3[1..], 0, h * 16 + l) == Good(h * 16 + l);
    assert Hex(u2, 2, 0) == Hex(u3, 1, h);
    assert Hex(u1, 3, 0) == Hex(u2, 2, 0);
    assert Hex(u, 4, 0) == Hex(u1, 3, 0);
  }

  lemma QuoteRoundTrip(s: string)
    ensures DecodeString(Quote(s)) == Good(s)
  {
    DecodeEscaped(s);
    var t := Quote(s);
    assert t[1..|t| - 1] == EscapeAll(s);
  }

  // ---------- Numbers ----------

  predicate AllDigits(ds: string) {
    forall i: nat :: i < |ds| ==> IsDigit(ds[i])
  }

  /** The number written by the digits ds after the number v. */
  function Decimal(ds: string, v: nat): (n: nat)
    requires AllDigits(ds)
  {
    if ds == "" then v else Decimal(ds[1..], v * 10 + (ds[0] - '0') as nat)
  }

  lemma {:induction false} DecimalGrows(ds: string, v: nat)
    requires AllDigits(ds)
    ensures Decimal(ds, v) >= v && (ds != "" ==> Decimal(ds, v) >= 10 * v)
  {
    if ds != "" {
      DecimalGrows(ds[1..], v * 10 + (ds[0] - '0') as nat);
    }
  }

  /** The digit loop stops exactly at the limit: it returns the number if and only if it fits. */
  lemma {:induction false} AccumulateExact(ds: string, value: nat, limit: nat)
    requires AllDigits(ds) && limit >= 10 && value <= limit
    ensures Accumulate(ds, value, limit)
         == if Decimal(ds, value) <= limit then Within(Decimal(ds, value)) else TooBig
  {
    if ds != "" {
      var d := (ds[0] - '0') as nat;
      DecimalGrows(ds[1..], value * 10 + d);
      if value * 10 + d <= limit {
        AccumulateExact(ds[1..], value * 10 + d, limit);
      }
    }
  }

  lemma {:induction false} DecimalConcat(a: string, b: string, v: nat)
    requires AllDigits(a) && AllDigits(b)
    ensures AllDigits(a + b) && Decimal(a + b, v) == Decimal(b, Decimal(a, v))
  {
    if a == "" {
      assert a + b == b;
    } else {
      DecimalConcat(a[1..], b, v * 10 + (a[0] - '0') as nat);
      assert (a + b)[1..] == a[1..] + b;
    }
  }

  /** Printed digits denote the number they were printed from. */
  lemma {:induction false} DecimalDigits(n: nat)
    ensures AllDigits(Digits(n)) && Decimal(Digits(n), 0) == n
  {
    var last := [Digit(n % 10)];
    assert last[1..] == "";
    if n >= 10 {
      DecimalDigits(n / 10);
      DecimalConcat(Digits(n / 10), last, 0);
    } else {
      assert "" + last == last;
    }
  }

  function Signed(negative: bool, ds: string): (r: string) {
    if negative then "-" + ds else ds
  }

  /**
    An optionally signed digit string: the integer path is taken exactly when
    the value is within the 64-bit limit for its sign, and then gives that value.
  */
  lemma DecodeNumberExact(ds: string, negative: bool, dd: Scanf)
    requires AllDigits(ds)
    ensures DecodeNumber(Signed(negative, ds), dd)
         == if Decimal(ds, 0) <= LimitOf(negative) then Good(IntegerValue(negative, Decimal(ds, 0)))
            else DecodeDouble(Signed(negative, ds), dd)
  {
    var text := Signed(negative, ds);
    AccumulateExact(ds, 0, LimitOf(negative));
    assert negative ==> text[1..] == ds;
    assert !negative ==> text == ds;
    if LooksLikeDouble(text) {
      var i: nat :| i < |text| && DoubleAt(text, i);
      assert IsDigit(ds[if negative then i - 1 else i]);
    }
  }

  lemma IntTextRoundTrip(i: int, dd: Scanf)
    requires MIN_LARGEST_INT <= i <= MAX_LARGEST_UINT
    ensures DecodeNumber(IntText(i), dd) == Good(if i < 0 || i <= MAX_INT then Int(i) else UInt(i))
    ensures forall k: nat :: k < |IntText(i)| ==> IsNumberChar(IntText(i)[k])
    ensures IsDigit(IntText(i)[0]) || IntText(i)[0] == '-'
  {
    var n: nat := if i < 0 then -i else i;
    DecimalDigits(n);
    DecodeNumberExact(Digits(n), i < 0, dd);
  }

  // ---------- Values ----------

  function NormInt(i: int): (v: Value) {
    if i <= MAX_INT then Int(i) else UInt(i)
  }

  /** The value with the integer tags the reader gives: small or negative ones are Int, others UInt. */
  function Norm(v: Value): (r: Value)
    decreases v, 0
  {
    match v
    case Int(i) => NormInt(i)
    case UInt(u) => NormInt(u)
    case Arr(items) => Arr(NormAll(items))
    case Obj(ms) => Obj(NormMembers(ms))
    case _ => v
  }

  function NormAll(items: seq<Value>): (r: seq<Value>)
    ensures |r| == |items|
    decreases items, 1
  {
    if items == [] then [] else [Norm(items[0])] + NormAll(items[1..])
  }

  function NormMembers(ms: seq<Member>): (r: seq<Member>)
    ensures |r| == |ms|
    decreases ms, 1
  {
    if ms == [] then [] else [Member(ms[0].name, Norm(ms[0].value))] + NormMembers(ms[1..])
  }

  predicate NoReals(v: Value)
    decreases v, 0
  {
    match v
    case Real(_) => false
    case Arr(items) => AllNoReals(items)
    case Obj(ms) => MembersNoReals(ms)
    case _ => true
  }

  predicate AllNoReals(items: seq<Value>)
    decreases items, 1
  {
    items == [] || (NoReals(items[0]) && AllNoReals(items[1..]))
  }

  predicate MembersNoReals(ms: seq<Member>)
    decreases ms, 1
  {
    ms == [] || (NoReals(ms[0].value) && MembersNoReals(ms[1..]))
  }

  /** Every value the round trip covers. */
  predicate Writable(v: Value) {
    WellFormed(v) && NoReals(v)
  }

  /** A value read where its tokens are, with what follows left to read. */
  ghost predicate ReadsBack(v: Value, s: string, more: seq<string>, was: Value, dd: Scanf) {
    var r := ReadValue(s, was, dd);
    r.ok && r.value == Norm(v) && Lex(r.rest) == more
  }

  lemma ReadBackScalar(v: Value, s: string, more: seq<string>, was: Value, dd: Scanf, rt: real -> string)
    requires Writable(v) && !v.Arr? && !v.Obj? && Lex(s) == Tokens(v, rt) + more
    ensures ReadsBack(v, s, more, was, dd)
  {
    if v.Null? || v.Bool? {
      ReadBackKeyword(v, s, more, was, dd, rt);
    } else if v.Str? {
      ReadBackStr(v.s, s, more, was, dd);
    } else {
      ReadBackInt(if v.Int? then v.i else v.u, s, more, dd);
    }
  }

  lemma ReadBackKeyword(v: Value, s: string, more: seq<string>, was: Value, dd: Scanf, rt: real -> string)
    requires (v.Null? || v.Bool?) && Lex(s) == Tokens(v, rt) + more
    ensures ReadsBack(v, s, more, was, dd)
  {
    ReadKeyword(s, if v.Null? then "null" else if v.b then "true" else "false", more);
  }

  lemma ReadBackStr(str: string, s: string, more: seq<string>, was: Value, dd: Scanf)
    requires NUL !in str && Lex(s) == [Quote(str)] + more
    ensures ReadsBack(Str(str), s, more, was, dd)
  {
    ReadQuote(s, str, more);
    QuoteRoundTrip(str);
  }

  lemma ReadBackInt(i: int, s: string, more: seq<string>, dd: Scanf)
    requires MIN_LARGEST_INT <= i <= MAX_LARGEST_UINT && Lex(s) == [IntText(i)] + more
    ensures SkipComments(s).kind == Number && Lex(SkipComments(s).rest) == more
    ensures DecodeNumber(SkipComments(s).text, dd) == Good(NormInt(i))
  {
    IntTextRoundTrip(i, dd);
    IntTextIsWord(i);
    ReadNumber(s, IntText(i), more);
  }

  lemma {:induction false} ReadBack(v: Value, s: string, more: seq<string>, was: Value, dd: Scanf, rt: real -> string)
    requires Writable(v) && Lex(s) == Tokens(v, rt) + more
    ensures ReadsBack(v, s, more, was, dd)
    decreases v, 0
  {
    match v
    case Arr(items) =>
      assert Lex(s) == ["["] + (ItemTokens(items, rt) + ["]"] + more);
      ReadPunct(s, '[', ItemTokens(items, rt) + ["]"] + more);
      ReadBackArray(items, SkipComments(s).rest, more, dd, rt);
    case Obj(ms) =>
      assert Lex(s) == ["{"] + (MemberTokens(ms, rt) + ["}"] + more);
      ReadPunct(s, '{', MemberTokens(ms, rt) + ["}"] + more);
      ReadBackMembers(ms, SkipComments(s).rest, [], "", more, dd, rt);
      assert [] + NormMembers(ms) == NormMembers(ms);
    case _ => ReadBackScalar(v, s, more, was, dd, rt);
  }

  /** No value starts with a closing bracket. */
  lemma FirstTokenOpens(v: Value, rt: real -> string)
    requires NoReals(v)
    ensures Tokens(v, rt)[0] != "]"
  {
    match v
    case Int(i) => DecimalDigits(if i < 0 then -i else i);
    case UInt(u) => DecimalDigits(u);
    case Str(t) => assert Quote(t)[0] == '"';
    case _ =>
  }

  lemma OpensWithout(t: string, w: string)
    requires t != "" && !IsSpace(t[0]) && t[..TokenLength(t)] == w != "]"
    ensures t[0] != ']'
  {
  }

  lemma {:induction false} ReadBackArray(items: seq<Value>, s: string, more: seq<string>, dd: Scanf, rt: real -> string)
    requires AllWellFormed(items) && AllNoReals(items) && Lex(s) == ItemTokens(items, rt) + ["]"] + more
    ensures var r := ReadArray(s, dd); r.ok && r.value == Arr(NormAll(items)) && Lex(r.rest) == more
    decreases items, 2
  {
    if items == [] {
      assert Lex(s) == ["]"] + more;
      var t := FirstToken(s, "]", more);
    } else {
      var ts := ItemTokens(items, rt) + ["]"] + more;
      FirstTokenOpens(items[0], rt);
      assert ts[0] == Tokens(items[0], rt)[0];
      assert Lex(s) == [ts[0]] + ts[1..];
      var t := FirstToken(s, ts[0], ts[1..]);
      OpensWithout(t, ts[0]);
      LexSkipsSpaces(s);
      ReadBackItems(items, t, [], more, dd, rt);
      assert [] + NormAll(items) == NormAll(items);
    }
  }

  lemma {:induction false} ReadBackItems(items: seq<Value>, s: string, acc: seq<Value>, more: seq<string>,
                                         dd: Scanf, rt: real -> string)
    requires items != [] && AllWellFormed(items) && AllNoReals(items)
    requires Lex(s) == ItemTokens(items, rt) + ["]"] + more
    ensures var r := ReadItems(s, acc, dd); r.ok && r.value == Arr(acc + NormAll(items)) && Lex(r.rest) == more
    decreases items, 1
  {
    if |items| == 1 {
      ItemShape(items, rt, more);
      ReadBack(items[0], s, ["]"] + more, Null, dd, rt);
      LastItem(items[0], s, acc, more, dd);
      assert NormAll(items) == [Norm(items[0])];
    } else {
      var tail := ItemTokens(items[1..], rt) + ["]"] + more;
      ItemShape(items, rt, more);
      ReadBack(items[0], s, [","] + tail, Null, dd, rt);
      var rest := NextItem(items[0], s, acc, tail, dd);
      var all := acc + [Norm(items[0])];
      ReadBackItems(items[1..], rest, all, more, dd, rt);
      Regroup(acc, Norm(items[0]), NormAll(items[1..]));
    }
  }

  lemma ItemShape(items: seq<Value>, rt: real -> string, more: seq<string>)
    requires items != []
    ensures ItemTokens(items, rt) + ["]"] + more
         == Tokens(items[0], rt) + (if |items| == 1 then ["]"] + more
                                    else [","] + (ItemTokens(items[1..], rt) + ["]"] + more))
  {
    if |items| > 1 {
      Nest(Tokens(items[0], rt), [","], ItemTokens(items[1..], rt), ["]"], more);
    }
  }

  lemma Nest<T>(a: seq<T>, b: seq<T>, c: seq<T>, d: seq<T>, e: seq<T>)
    ensures a + b + c + d + e == a + (b + (c + d + e))
  {
  }

  lemma LastItem(v: Value, s: string, acc: seq<Value>, more: seq<string>, dd: Scanf)
    requires ReadsBack(v, s, ["]"] + more, Null, dd)
    ensures var r := ReadItems(s, acc, dd); r.ok && r.value == Arr(acc + [Norm(v)]) && Lex(r.rest) == more
  {
    ReadPunct(ReadValue(s, Null, dd).rest, ']', more);
  }

  lemma NextItem(v: Value, s: string, acc: seq<Value>, tail: seq<string>, dd: Scanf) returns (rest: string)
    requires ReadsBack(v, s, [","] + tail, Null, dd)
    ensures ReadItems(s, acc, dd) == ReadItems(rest, acc + [Norm(v)], dd) && Lex(rest) == tail
  {
    var r := ReadValue(s, Null, dd);
    ReadPunct(r.rest, ',', tail);
    rest := SkipComments(r.rest).rest;
  }

  /** All names of acc come before all names of ms. */
  predicate Before(acc: seq<Member>, ms: seq<Member>) {
    forall i: nat, j: nat :: i < |acc| && j < |ms| ==> Less(acc[i].name, ms[j].name)
  }

  lemma {:induction false} ReadBackMembers(ms: seq<Member>, s: string, acc: seq<Member>, last: string,
                                           more: seq<string>, dd: Scanf, rt: real -> string)
    requires Sorted(ms) && MembersWellFormed(ms) && MembersNoReals(ms) && Before(acc, ms)
    requires Lex(s) == MemberTokens(ms, rt) + ["}"] + more && (ms == [] ==> last == "")
    ensures var r := ReadMembers(s, acc, last, dd);
            r.ok && r.value == Obj(acc + NormMembers(ms)) && Lex(r.rest) == more
    decreases ms, 2
  {
    if ms == [] {
      assert Lex(s) == ["}"] + more;
      ReadPunct(s, '}', more);
      assert acc + [] == acc;
    } else {
      var after := Tokens(ms[0].value, rt) + (MemberTail(ms, rt) + more);
      MemberShape(ms, rt, more);
      ReadQuote(s, ms[0].name, [":"] + after);
      QuoteRoundTrip(ms[0].name);
      var s1 := SkipComments(s).rest;
      ReadPunct(s1, ':', after);
      ReadBackMember(ms, ReadToken(s1).rest, acc, more, dd, rt);
    }
  }

  lemma MemberShape(ms: seq<Member>, rt: real -> string, more: seq<string>)
    requires ms != []
    ensures MemberTokens(ms, rt) + ["}"] + more
         == [Quote(ms[0].name)] + ([":"] + (Tokens(ms[0].value, rt) + (MemberTail(ms, rt) + more)))
  {
    var t := Tokens(ms[0].value, rt);
    if |ms| > 1 {
      Reassociate(OneMember(ms[0], rt), [","], MemberTokens(ms[1..], rt), ["}"]);
    }
    assert MemberTokens(ms, rt) + ["}"] == OneMember(ms[0], rt) + MemberTail(ms, rt);
    Unpair(Quote(ms[0].name), ":", t, MemberTail(ms, rt), more);
  }

  lemma Reassociate<T>(a: seq<T>, b: seq<T>, c: seq<T>, d: seq<T>)
    ensures a + b + c + d == a + (b + c + d)
  {
  }

  lemma Unpair<T>(x: T, y: T, t: seq<T>, u: seq<T>, v: seq<T>)
    ensures [x, y] + t + u + v == [x] + ([y] + (t + (u + v)))
  {
  }

  /** What follows the first member's value. */
  function MemberTail(ms: seq<Member>, rt: real -> string): (r: seq<string>)
    requires ms != []
  {
    if |ms| == 1 then ["}"] else [","] + MemberTokens(ms[1..], rt) + ["}"]
  }

  lemma {:induction false} ReadBackMember(ms: seq<Member>, s: string, acc: seq<Member>, more: seq<string>,
                                          dd: Scanf, rt: real -> string)
    requires ms != [] && Sorted(ms) && MembersWellFormed(ms) && MembersNoReals(ms) && Before(acc, ms)
    requires Lex(s) == Tokens(ms[0].value, rt) + (MemberTail(ms, rt) + more)
    ensures var r := ReadMember(s, acc, ms[0].name, dd);
            r.ok && r.value == Obj(acc + NormMembers(ms)) && Lex(r.rest) == more
    decreases ms, 1
  {
    BeforeNext(acc, ms, Norm(ms[0].value));
    if |ms| == 1 {
      ReadBack(ms[0].value, s, ["}"] + more, Lookup(acc, ms[0].name), dd, rt);
      LastMember(ms[0], s, acc, more, dd);
      assert NormMembers(ms) == [Member(ms[0].name, Norm(ms[0].value))];
    } else {
      var tail := MemberTokens(ms[1..], rt) + ["}"] + more;
      TailShape(ms, rt, more);
      ReadBack(ms[0].value, s, [","] + tail, Lookup(acc, ms[0].name), dd, rt);
      var rest := NextMember(ms[0], s, acc, tail, dd);
      var all := acc + [Member(ms[0].name, Norm(ms[0].value))];
      ReadBackMembers(ms[1..], rest, all, ms[0].name, more, dd, rt);
      Regroup(acc, Member(ms[0].name, Norm(ms[0].value)), NormMembers(ms[1..]));
    }
  }

  lemma TailShape(ms: seq<Member>, rt: real -> string, more: seq<string>)
    requires |ms| > 1
    ensures MemberTail(ms, rt) + more == [","] + (MemberTokens(ms[1..], rt) + ["}"] + more)
  {
  }

  lemma Regroup<T>(a: seq<T>, x: T, b: seq<T>)
    ensures a + [x] + b == a + ([x] + b)
  {
  }

  lemma LastMember(m: Member, s: string, acc: seq<Member>, more: seq<string>, dd: Scanf)
    requires NUL !in m.name && ReadsBack(m.value, s, ["}"] + more, Lookup(acc, m.name), dd)
    requires Put(acc, m.name, Norm(m.value)) == acc + [Member(m.name, Norm(m.value))]
    ensures var r := ReadMember(s, acc, m.name, dd);
            r.ok && r.value == Obj(acc + [Member(m.name, Norm(m.value))]) && Lex(r.rest) == more
  {
    ReadPunct(ReadValue(s, Lookup(acc, m.name), dd).rest, '}', more);
  }

  lemma NextMember(m: Member, s: string, acc: seq<Member>, tail: seq<string>, dd: Scanf) returns (rest: string)
    requires NUL !in m.name && ReadsBack(m.value, s, [","] + tail, Lookup(acc, m.name), dd)
    requires Put(acc, m.name, Norm(m.value)) == acc + [Member(m.name, Norm(m.value))]
    ensures ReadMember(s, acc, m.name, dd) == ReadMembers(rest, acc + [Member(m.name, Norm(m.value))], m.name, dd)
    ensures Lex(rest) == tail
  {
    var v := ReadValue(s, Lookup(acc, m.name), dd);
    ReadPunct(v.rest, ',', tail);
    rest := ReadToken(v.rest).rest;
  }

  lemma BeforeNext(acc: seq<Member>, ms: seq<Member>, w: Value)
    requires ms != [] && Sorted(ms) && Before(acc, ms)
    ensures Sorted(ms[1..]) && Before(acc + [Member(ms[0].name, w)], ms[1..])
    ensures Put(acc, ms[0].name, w) == acc + [Member(ms[0].name, w)]
  {
    forall i: nat | i < |acc| ensures Less(acc[i].name, ms[0].name) {
      assert Less(acc[i].name, ms[0].name);
    }
    PutLast(acc, ms[0].name, w);
  }
}
