/** The writers: numbers and strings as text, and the compact document writer. */
module JsonWriter {
  import opened JsonValue
  import opened JsonText

  const UINT_TO_STRING_BUFFER_SIZE: nat := 25

  function Pow10(n: nat): (p: nat)
    ensures p > 0
  {
    if n == 0 then 1 else 10 * Pow10(n - 1)
  }

  lemma TwentyDigits()
    ensures MAX_LARGEST_UINT < Pow10(20)
  {
    assert Pow10(4) == 10000;
    assert Pow10(8) == 10000 * Pow10(4);
    assert Pow10(12) == 10000 * Pow10(8);
    assert Pow10(16) == 10000 * Pow10(12);
    assert Pow10(20) == 10000 * Pow10(16);
  }

  /** *--current = c: the text in the buffer grows by one character in front. */
  method PutFront(buffer: array<char>, current: nat, c: char) returns (next: nat)
    requires 0 < current <= buffer.Length
    modifies buffer
    ensures next == current - 1 && buffer[next..] == [c] + old(buffer[current..])
  {
    next := current - 1;
    buffer[next] := c;
  }

  /** Print a number backwards into the buffer, which is large enough for any 64-bit value. */
  method UIntToString(v: nat, buffer: array<char>) returns (current: nat)
    requires v <= MAX_LARGEST_UINT && buffer.Length == UINT_TO_STRING_BUFFER_SIZE
    modifies buffer
    ensures 4 <= current <= buffer.Length && buffer[current..] == Digits(v) + [NUL]
  {
    TwentyDigits();
    var value: nat := v;
    current := PutFront(buffer, buffer.Length, NUL);
    ghost var left: nat, text := 20, [NUL];
    var more := true;
    while more
      invariant left <= 20 && current == 4 + left && buffer[current..] == text
      invariant more ==> left > 0 && value < Pow10(left)
      invariant Digits(v) + [NUL] == (if more then Digits(value) else "") + text
      decreases left
    {
      DigitsStep(value, text);
      current := PutFront(buffer, current, Digit(value % 10));
      text := [Digit(value % 10)] + text;
      value := value / 10;
      left := left - 1;
      more := value != 0;
    }
    assert "" + text == text;
  }

  /** Splitting off the last digit of a number to be printed in front of some text. */
  lemma DigitsStep(n: nat, text: string)
    ensures Digits(n) + text
         == (if n / 10 == 0 then "" else Digits(n / 10)) + ([Digit(n % 10)] + text)
  {
    assert n < 10 <==> n / 10 == 0;
    if n >= 10 {
      assert Digits(n / 10) + [Digit(n % 10)] + text == Digits(n / 10) + ([Digit(n % 10)] + text);
    }
  }

  /** A C string in a buffer. */
  function CString(buffer: array<char>, i: nat): (s: string)
    requires i <= buffer.Length
    reads buffer
  {
    CStr(buffer[i..])
  }

  lemma {:induction false} CStrPrefix(s: string, t: string)
    requires NUL !in s
    ensures CStr(s + [NUL] + t) == s
  {
    if s != "" {
      CStrPrefix(s[1..], t);
      assert (s + [NUL] + t)[1..] == s[1..] + [NUL] + t;
      assert s == [s[0]] + s[1..];
    }
  }

  method IntToText(i: int) returns (text: string)
    requires MIN_LARGEST_INT <= i <= MAX_LARGEST_UINT
    ensures text == IntText(i)
  {
    var buffer := new char[UINT_TO_STRING_BUFFER_SIZE];
    var isNegative := i < 0;
    var n: nat := if isNegative then -i else i;
    var current := UIntToString(n, buffer);
    if isNegative {
      current := PutFront(buffer, current, '-');
    }
    PrintedText(i, buffer[current..]);
    text := CString(buffer, current);
  }

  lemma PrintedText(i: int, s: string)
    requires s == if i < 0 then ['-'] + (Digits(-i) + [NUL]) else Digits(i) + [NUL]
    ensures CStr(s) == IntText(i)
  {
    NoNul(if i < 0 then -i else i);
    CStrPrefix(IntText(i), "");
    assert s == IntText(i) + [NUL] + "";
  }

  lemma {:induction false} NoNul(n: nat)
    ensures NUL !in Digits(n)
  {
    if n >= 10 {
      NoNul(n / 10);
    }
  }

  predicate NeedsEscape(c: char) {
    c == '"' || c == '\\' || c == '\U{0008}' || c == '\U{000C}' || c == '\n' || c == '\r' || c == '\t'
  }

  lemma {:induction false} EscapeAllConcat(a: string, b: string)
    ensures EscapeAll(a + b) == EscapeAll(a) + EscapeAll(b)
  {
    if a == "" {
      assert a + b == b;
    } else {
      EscapeAllConcat(a[1..], b);
      assert (a + b)[0] == a[0] && (a + b)[1..] == a[1..] + b;
      TextRegroup(Escape(a[0]), EscapeAll(a[1..]), EscapeAll(b));
    }
  }

  lemma TextRegroup(a: string, b: string, c: string)
    ensures a + (b + c) == a + b + c
  {
  }

  lemma {:induction false} PlainEscape(s: string)
    requires forall i: nat :: i < |s| ==> !NeedsEscape(s[i]) && !IsControl(s[i])
    ensures EscapeAll(s) == s
  {
    if s != "" {
      PlainEscape(s[1..]);
      assert s == [s[0]] + s[1..];
    }
  }

  /** A string as a JSON literal: verbatim if nothing needs escaping, else byte by byte. */
  method QuotedText(value: string) returns (result: string)
    requires NUL !in value
    ensures result == Quote(value)
  {
    if forall i: nat :: i < |value| ==> !NeedsEscape(value[i]) && !IsControl(value[i]) {
      PlainEscape(value);
      return "\"" + value + "\"";
    }
    result := "\"";
    for i := 0 to |value|
      invariant result == "\"" + EscapeAll(value[..i])
    {
      assert value[..i + 1] == value[..i] + [value[i]];
      EscapeAllConcat(value[..i], [value[i]]);
      assert EscapeAll([value[i]]) == Escape(value[i]) + "";
      result := result + Escape(value[i]);
    }
    assert value[..|value|] == value;
    result := result + "\"";
  }

  /** The text of a value's tokens, one directly after the other. */
  function Compact(v: Value, realText: real -> string): (r: string) {
    Flatten(Tokens(v, realText))
  }

  function CompactItems(items: seq<Value>, realText: real -> string): (r: string) {
    Flatten(ItemTokens(items, realText))
  }

  function CompactMembers(ms: seq<Member>, realText: real -> string): (r: string) {
    Flatten(MemberTokens(ms, realText))
  }

  lemma CompactArray(items: seq<Value>, realText: real -> string)
    ensures Compact(Arr(items), realText) == "[" + CompactItems(items, realText) + "]"
  {
    FlattenConcat(["["] + ItemTokens(items, realText), ["]"]);
    FlattenConcat(["["], ItemTokens(items, realText));
    FlattenOne("[");
    FlattenOne("]");
  }

  lemma CompactObject(ms: seq<Member>, realText: real -> string)
    ensures Compact(Obj(ms), realText) == "{" + CompactMembers(ms, realText) + "}"
  {
    FlattenConcat(["{"] + MemberTokens(ms, realText), ["}"]);
    FlattenConcat(["{"], MemberTokens(ms, realText));
    FlattenOne("{");
    FlattenOne("}");
  }

  /** What is left to print of a list from element i on, starting with its separator. */
  function RestItems(items: seq<Value>, i: nat, realText: real -> string): (r: string)
    requires i <= |items|
  {
    if i == |items| then "" else (if i > 0 then "," else "") + CompactItems(items[i..], realText)
  }

  lemma RestItemsStep(items: seq<Value>, i: nat, realText: real -> string)
    requires i < |items|
    ensures RestItems(items, i, realText)
         == (if i > 0 then "," else "") + Compact(items[i], realText) + RestItems(items, i + 1, realText)
  {
    var rest := items[i..];
    assert rest[0] == items[i] && rest[1..] == items[i + 1..];
    var t := Tokens(items[i], realText);
    if |rest| > 1 {
      FlattenConcat(t + [","], ItemTokens(rest[1..], realText));
      FlattenConcat(t, [","]);
      FlattenOne(",");
    }
  }

  function RestMembers(ms: seq<Member>, i: nat, realText: real -> string): (r: string)
    requires i <= |ms|
  {
    if i == |ms| then "" else (if i > 0 then "," else "") + CompactMembers(ms[i..], realText)
  }

  function MemberText(m: Member, realText: real -> string): (r: string) {
    Quote(m.name) + ":" + Compact(m.value, realText)
  }

  lemma RestMembersStep(ms: seq<Member>, i: nat, realText: real -> string)
    requires i < |ms|
    ensures RestMembers(ms, i, realText)
         == (if i > 0 then "," else "") + MemberText(ms[i], realText) + RestMembers(ms, i + 1, realText)
  {
    var rest := ms[i..];
    assert rest[0] == ms[i] && rest[1..] == ms[i + 1..];
    var t := OneMember(ms[i], realText);
    FlattenMember(ms[i], realText);
    if |rest| > 1 {
      FlattenConcat(t + [","], MemberTokens(rest[1..], realText));
      FlattenConcat(t, [","]);
      FlattenOne(",");
    }
  }

  lemma FlattenMember(m: Member, realText: real -> string)
    ensures Flatten(OneMember(m, realText)) == MemberText(m, realText)
  {
    FlattenConcat([Quote(m.name), ":"], Tokens(m.value, realText));
    FlattenConcat([Quote(m.name)], [":"]);
    FlattenOne(Quote(m.name));
    FlattenOne(":");
    assert [Quote(m.name)] + [":"] == [Quote(m.name), ":"];
  }

  lemma Regroup(a: string, b: string, c: string, d: string)
    ensures a + (b + c + d) == a + b + c + d
  {
  }

  lemma ItemsWellFormed(items: seq<Value>, i: nat)
    requires AllWellFormed(items) && i < |items|
    ensures WellFormed(items[i])
  {
    if i > 0 {
      ItemsWellFormed(items[1..], i - 1);
    }
  }

  lemma MemberWellFormed(ms: seq<Member>, i: nat)
    requires MembersWellFormed(ms) && i < |ms|
    ensures WellFormed(ms[i].value) && NUL !in ms[i].name
  {
    if i > 0 {
      MemberWellFormed(ms[1..], i - 1);
    }
  }

  /** The text of a value that is not a container, as both writers print it. */
  method ScalarText(v: Value, realText: real -> string) returns (text: string)
    requires WellFormed(v) && !v.Arr? && !v.Obj?
    ensures Tokens(v, realText) == [text] && text == Compact(v, realText)
  {
    match v {
      case Null => text := "null";
      case Bool(b) => text := if b then "true" else "false";
      case Int(i) => text := IntToText(i);
      case UInt(u) => text := IntToText(u);
      case Real(x) => text := realText(x);
      case Str(s) => text := QuotedText(s);
    }
    FlattenOne(text);
  }

  /** The compact writer, with its default options. */
  class FastWriter {
    const realText: real -> string
    var document: string

    constructor (realText: real -> string)
      ensures this.realText == realText
    {
      this.realText := realText;
      document := "";
    }

    method Write(root: Value) returns (text: string)
      requires WellFormed(root)
      modifies this
      ensures text == Compact(root, realText) + "\n"
    {
      document := "";
      WriteValue(root);
      document := document + "\n";
      return document;
    }

    method WriteValue(v: Value)
      requires WellFormed(v)
      modifies this
      ensures document == old(document) + Compact(v, realText)
      decreases v, 0
    {
      match v
      case Arr(items) => WriteArray(items);
      case Obj(ms) => WriteObject(ms);
      case _ =>
        var text := ScalarText(v, realText);
        document := document + text;
    }

    method WriteArray(items: seq<Value>)
      requires AllWellFormed(items)
      modifies this
      ensures document == old(document) + Compact(Arr(items), realText)
      decreases items, 1
    {
      CompactArray(items, realText);
      Regroup(document, "[", CompactItems(items, realText), "]");
      document := document + "[";
      ghost var all := document + CompactItems(items, realText);
      assert items[0..] == items;
      for index := 0 to |items|
        invariant all == document + RestItems(items, index, realText)
      {
        RestItemsStep(items, index, realText);
        Regroup(document, if index > 0 then "," else "", Compact(items[index], realText),
                RestItems(items, index + 1, realText));
        ItemsWellFormed(items, index);
        document := document + if index > 0 then "," else "";
        WriteValue(items[index]);
      }
      assert document + "" == document;
      document := document + "]";
    }

    method WriteObject(ms: seq<Member>)
      requires MembersWellFormed(ms)
      modifies this
      ensures document == old(document) + Compact(Obj(ms), realText)
      decreases ms, 1
    {
      CompactObject(ms, realText);
      Regroup(document, "{", CompactMembers(ms, realText), "}");
      document := document + "{";
      ghost var all := document + CompactMembers(ms, realText);
      assert ms[0..] == ms;
      for index := 0 to |ms|
        invariant all == document + RestMembers(ms, index, realText)
      {
        RestMembersStep(ms, index, realText);
        Regroup(document, if index > 0 then "," else "", MemberText(ms[index], realText),
                RestMembers(ms, index + 1, realText));
        MemberWellFormed(ms, index);
        document := document + if index > 0 then "," else "";
        WriteMember(ms[index]);
      }
      assert document + "" == document;
      document := document + "}";
    }

    method WriteMember(m: Member)
      requires WellFormed(m.value) && NUL !in m.name
      modifies this
      ensures document == old(document) + MemberText(m, realText)
      decreases m, 1
    {
      var name := QuotedText(m.name);
      Regroup(document, name, ":", Compact(m.value, realText));
      document := document + name;
      document := document + ":";
      WriteValue(m.value);
    }
  }
}
