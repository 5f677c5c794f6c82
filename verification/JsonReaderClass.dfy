/** The reader as it runs: a cursor into the document, a stack of values under construction, a list of errors. */
module JsonReaderClass {
  import opened JsonValue
  import opened JsonText
  import opened JsonReader

  class Reader {
    const dd: Scanf
    var doc: string
    var current: nat
    var errors: seq<Error>
    var nodes: seq<Value>

    ghost predicate Valid()
      reads this
    {
      current <= |doc|
    }

    ghost function Rest(): (s: string)
      requires Valid()
      reads this
    {
      doc[current..]
    }

    constructor (dd: Scanf)
      ensures Valid() && this.dd == dd
    {
      this.dd := dd;
      doc, current, errors, nodes := "", 0, [], [];
    }

    method GetNextChar() returns (c: char)
      requires Valid()
      modifies this`current
      ensures Valid()
      ensures if old(current) == |doc| then c == NUL && current == old(current)
              else c == doc[old(current)] && current == old(current) + 1
    {
      if current == |doc| {
        return NUL;
      }
      c := doc[current];
      current := current + 1;
    }

    method SkipBlanks()
      requires Valid()
      modifies this`current
      ensures Valid() && Rest() == SkipSpaces(old(Rest())) && old(current) <= current
    {
      while current != |doc|
        invariant Valid() && SkipSpaces(Rest()) == SkipSpaces(old(Rest())) && old(current) <= current
        decreases |doc| - current
      {
        var c := doc[current];
        if c == ' ' || c == '\t' || c == '\r' || c == '\n' {
          assert Rest()[1..] == doc[current + 1..];
          current := current + 1;
        } else {
          break;
        }
      }
    }

    /** Compare the characters at the cursor with a pattern, last one first; advance only on a match. */
    method Match(pattern: string) returns (ok: bool)
      requires Valid()
      modifies this`current
      ensures Valid()
      ensures ok <==> old(current) + |pattern| <= |doc| && doc[old(current)..old(current) + |pattern|] == pattern
      ensures current == if ok then old(current) + |pattern| else old(current)
    {
      if |doc| - current < |pattern| {
        return false;
      }
      var index: nat := |pattern|;
      while index > 0
        invariant index <= |pattern|
        invariant forall k: nat :: index <= k < |pattern| ==> doc[current + k] == pattern[k]
      {
        index := index - 1;
        if doc[current + index] != pattern[index] {
          assert doc[current..current + |pattern|][index] != pattern[index];
          return false;
        }
      }
      assert doc[current..current + |pattern|] == pattern;
      current := current + |pattern|;
      return true;
    }

    method ReadCStyleComment(ghost start: nat) returns (ok: bool)
      requires Valid() && start + 2 == current
      modifies this`current
      ensures Valid()
      ensures var e := CommentEnd(doc[start..], 2);
              current == (if start + e == |doc| then |doc| else start + e + 1) &&
              ok == (start + e < |doc| && doc[start + e] == '/')
    {
      ghost var s := doc[start..];
      while current != |doc|
        invariant Valid() && start + 2 <= current && CommentEnd(s, current - start) == CommentEnd(s, 2)
        decreases |doc| - current
      {
        var c := GetNextChar();
        if c == '*' && current < |doc| && doc[current] == '/' {
          break;
        }
      }
      var c := GetNextChar();
      return c == '/';
    }

    method ReadCppStyleComment(ghost start: nat)
      requires Valid() && start + 2 == current
      modifies this`current
      ensures Valid() && current == start + LineEnd(doc[start..], 2)
    {
      ghost var s := doc[start..];
      while current != |doc|
        invariant Valid() && start + 2 <= current && LineEnd(s, current - start) == LineEnd(s, 2)
        decreases |doc| - current
      {
        var c := GetNextChar();
        if c == '\r' || c == '\n' {
          break;
        }
      }
    }

    method ReadNumber(ghost start: nat)
      requires Valid() && start + 1 == current
      modifies this`current
      ensures Valid() && current == start + NumberEnd(doc[start..], 1)
    {
      ghost var s := doc[start..];
      while current != |doc|
        invariant Valid() && start + 1 <= current && NumberEnd(s, current - start) == NumberEnd(s, 1)
        decreases |doc| - current
      {
        if !IsNumberChar(doc[current]) {
          break;
        }
        current := current + 1;
      }
    }

    method ReadString(ghost start: nat) returns (ok: bool)
      requires Valid() && start + 1 == current
      modifies this`current
      ensures Valid()
      ensures current == start + StringEnd(doc[start..], 1) && ok == StringCloses(doc[start..], 1)
    {
      ghost var s := doc[start..];
      var c := NUL;
      while current != |doc|
        invariant Valid() && start + 1 <= current && c != '"'
        invariant StringEnd(s, current - start) == StringEnd(s, 1)
        invariant StringCloses(s, current - start) == StringCloses(s, 1)
        decreases |doc| - current
      {
        c := GetNextChar();
        if c == '\\' {
          var _ := GetNextChar();
        } else if c == '"' {
          break;
        }
      }
      return c == '"';
    }

    /** The document between start and the cursor is the token cut from what starts at start. */
    ghost predicate Took(t: Token, start: nat)
      reads this
    {
      start <= current <= |doc| && doc[start..current] == t.text && doc[current..] == t.rest
    }

    lemma TakesCut(start: nat, kind: TokenType, n: nat)
      requires start + n == current <= |doc|
      ensures Took(Cut(kind, doc[start..], n), start)
    {
    }

    method ReadCommentToken(ghost start: nat) returns (ok: bool)
      requires Valid() && start + 1 == current
      modifies this`current
      ensures Valid() && Took(ReadComment(doc[start..]), start)
      ensures ok == (ReadComment(doc[start..]).kind == Comment)
    {
      ghost var s := doc[start..];
      var c := GetNextChar();
      ok := false;
      if c == '*' {
        assert |s| > 1 && s[1] == '*';
        ok := ReadCStyleComment(start);
      } else if c == '/' {
        assert |s| > 1 && s[1] == '/';
        ReadCppStyleComment(start);
        ok := true;
      }
      assert ReadComment(s) == Cut(if ok then Comment else ErrorToken, s, current - start) by {
        assert |s| > 1 && c == '*' ==> s[1] == '*';
      }
      TakesCut(start, Comment, current - start);
    }

    /** The rest of a fixed word; its first character has been read. */
    method ReadKeyword(ghost start: nat, kind: TokenType, word: string) returns (k: TokenType)
      requires Valid() && start + 1 == current && word != "" && kind != ErrorToken
      modifies this`current
      ensures Valid() && Took(Keyword(kind, word, doc[start..]), start) && k == Keyword(kind, word, doc[start..]).kind
    {
      ghost var s := doc[start..];
      var ok := Match(word[1..]);
      assert |word| <= |s| ==> s[1..|word|] == doc[start + 1..start + |word|];
      TakesCut(start, kind, current - start);
      return if ok then kind else ErrorToken;
    }

    /** The kind of a token that is a single character. */
    static function SingleKind(c: char): (k: TokenType) {
      if c == '{' then ObjectBegin else if c == '}' then ObjectEnd
      else if c == '[' then ArrayBegin else if c == ']' then ArrayEnd
      else if c == ',' then ArraySeparator else if c == ':' then MemberSeparator
      else if c == NUL then EndOfStream
      else ErrorToken
    }

    /** The token whose first character c is none of a quote, a slash, a digit or a minus. */
    method ReadWordOrMark(ghost start: nat, c: char) returns (kind: TokenType)
      requires Valid() && start <= |doc| && current == (if start == |doc| then start else start + 1)
      requires c == (if start == |doc| then NUL else doc[start])
      requires c != '"' && c != '/' && !('0' <= c <= '9') && c != '-'
      modifies this`current
      ensures Valid() && kind == TokenAt(doc[start..]).kind && Took(TokenAt(doc[start..]), start)
    {
      ghost var s := doc[start..];
      if c == 't' {
        kind := ReadKeyword(start, True, "true");
      } else if c == 'f' {
        kind := ReadKeyword(start, False, "false");
      } else if c == 'n' {
        kind := ReadKeyword(start, NullToken, "null");
      } else {
        kind := SingleKind(c);
        if s != "" {
          TakesCut(start, kind, 1);
        }
      }
    }

    /** Read the token at the cursor, which is not at a blank. */
    method ReadFrom() returns (kind: TokenType)
      requires Valid()
      modifies this`current
      ensures Valid() && kind == TokenAt(old(Rest())).kind && Took(TokenAt(old(Rest())), old(current))
    {
      ghost var start, s := current, doc[current..];
      var c := GetNextChar();
      if c == '"' {
        var ok := ReadString(start);
        kind := if ok then String else ErrorToken;
        TakesCut(start, kind, StringEnd(s, 1));
      } else if c == '/' {
        var ok := ReadCommentToken(start);
        kind := if ok then Comment else ErrorToken;
      } else if '0' <= c <= '9' || c == '-' {
        ReadNumber(start);
        kind := Number;
        TakesCut(start, kind, NumberEnd(s, 1));
      } else {
        kind := ReadWordOrMark(start, c);
      }
    }

    /** Read one token; start is where it began. */
    method ReadTok() returns (kind: TokenType, start: nat)
      requires Valid()
      modifies this`current
      ensures Valid() && kind == ReadToken(old(Rest())).kind && Took(ReadToken(old(Rest())), start)
    {
      SkipBlanks();
      start := current;
      kind := ReadFrom();
    }

    method SkipCommentToks() returns (kind: TokenType, start: nat)
      requires Valid()
      modifies this`current
      ensures Valid() && kind == SkipComments(old(Rest())).kind && Took(SkipComments(old(Rest())), start)
    {
      kind, start := ReadTok();
      while kind == Comment
        invariant Valid() && start <= current
        invariant if kind == Comment then SkipComments(old(Rest())) == SkipComments(Rest())
                  else kind == SkipComments(old(Rest())).kind && Took(SkipComments(old(Rest())), start)
        decreases |doc| - current, kind == Comment
      {
        kind, start := ReadTok();
      }
    }

    method AddError(e: Error) returns (ok: bool)
      modifies this`errors
      ensures errors == old(errors) + [e] && !ok
    {
      errors := errors + [e];
      return false;
    }

    /** Skip to the given token or to the end, discarding any errors met on the way. */
    method RecoverFromError(until: TokenType) returns (ok: bool)
      requires Valid()
      modifies this`current, this`errors
      ensures Valid() && Rest() == Recover(old(Rest()), until) && errors == old(errors) && !ok
    {
      var errorCount := |errors|;
      while true
        invariant Valid() && errors == old(errors)
        invariant Recover(Rest(), until) == Recover(old(Rest()), until)
        decreases |doc| - current
      {
        ghost var t := ReadToken(Rest());
        var kind, start := ReadTok();
        if kind == until || kind == EndOfStream {
          break;
        }
      }
      errors := errors[..errorCount];
      return false;
    }

    // ---------- Numbers ----------

    method DecodeDoubleTok(text: string) returns (ok: bool, decoded: Value)
      modifies this`errors
      ensures Reports(ok, DecodeDouble(text, dd), decoded, old(errors))
    {
      decoded := Null;
      match dd(text)
      case Some(x) => return true, Real(x);
      case None => ok := AddError(NotANumber);
    }

    /** A decoded result handed back: its value, or its error appended to the list. */
    ghost predicate Reports<T>(ok: bool, d: Decoded<T>, decoded: T, before: seq<Error>)
      reads this`errors
    {
      match d
      case Good(v) => ok && decoded == v && errors == before
      case Bad(e) => !ok && errors == before + [e]
    }

    static method ScanForDouble(text: string) returns (isDouble: bool)
      ensures isDouble == LooksLikeDouble(text)
    {
      isDouble := false;
      for i := 0 to |text|
        invariant isDouble <==> exists k: nat :: k < i && DoubleAt(text, k)
      {
        isDouble := isDouble || DoubleAt(text, i);
      }
    }

    /** The digit loop; its accumulator never passes the limit. */
    static method ScanDigits(ds: string, maxIntegerValue: nat) returns (a: Accumulated)
      ensures a == Accumulate(ds, 0, maxIntegerValue)
    {
      var i := 0;
      var threshold := maxIntegerValue / 10;
      var value: nat := 0;
      while i < |ds|
        invariant i <= |ds| && value <= maxIntegerValue
        invariant Accumulate(ds, 0, maxIntegerValue) == Accumulate(ds[i..], value, maxIntegerValue)
      {
        var c := ds[i];
        assert ds[i..][0] == c && ds[i..][1..] == ds[i + 1..];
        i := i + 1;
        if c < '0' || c > '9' {
          return BadDigit;
        }
        var digit := (c - '0') as nat;
        if value >= threshold {
          if value > threshold || i != |ds| || digit > maxIntegerValue % 10 {
            return TooBig;
          }
        }
        value := value * 10 + digit;
      }
      return Within(value);
    }

    method DecodeNumberTok(text: string) returns (ok: bool, decoded: Value)
      modifies this`errors
      ensures Reports(ok, DecodeNumber(text, dd), decoded, old(errors))
    {
      decoded := Null;
      var isDouble := ScanForDouble(text);
      if isDouble {
        ok, decoded := DecodeDoubleTok(text);
        return;
      }
      var isNegative := text != "" && text[0] == '-';
      var a := ScanDigits(if isNegative then text[1..] else text, LimitOf(isNegative));
      match a
      case BadDigit => ok := AddError(NotANumber);
      case TooBig => ok, decoded := DecodeDoubleTok(text);
      case Within(n) => return true, IntegerValue(isNegative, n);
    }

    // ---------- Strings ----------

    /** Four hexadecimal digits at i. */
    method DecodeUnicodeEscape(text: string, i: nat, end: nat) returns (ok: bool, unicode: nat)
      requires i <= end <= |text|
      modifies this`errors
      ensures Reports(ok, EscapeSequence(text[i..end]), unicode, old(errors))
    {
      if end - i < 4 {
        ok := AddError(FourDigitsExpected);
        return ok, 0;
      }
      ghost var s := text[i..end];
      unicode := 0;
      for index := 0 to 4
        invariant errors == old(errors)
        invariant Hex(s, 4, 0) == Hex(s[index..], 4 - index, unicode)
      {
        var c := text[i + index];
        assert s[index..][0] == c && s[index..][1..] == s[index + 1..];
        match HexValue(c)
        case Some(d) => unicode := unicode * 16 + d;
        case None =>
          ok := AddError(HexDigitExpected);
          return ok, 0;
      }
      return true, unicode;
    }

    /** A code point at i, possibly a surrogate pair; next is where it ends. */
    method DecodeUnicodeCodePoint(text: string, i: nat, end: nat) returns (ok: bool, unicode: nat, next: nat)
      requires i <= end <= |text|
      modifies this`errors
      ensures i <= next <= end && Reports(ok, CodePoint(text[i..end]), (unicode, next - i), old(errors))
    {
      ghost var s := text[i..end];
      next := i;
      ok, unicode := DecodeUnicodeEscape(text, i, end);
      if !ok {
        return;
      }
      next := i + 4;
      if 0xD800 <= unicode <= 0xDBFF {
        if end - next < 6 {
          ok := AddError(SixCharactersExpected);
          return;
        }
        if text[i + 4] == '\\' && text[i + 5] == 'u' {
          assert s[6..] == text[i + 6..end];
          var second;
          ok, second := DecodeUnicodeEscape(text, i + 6, end);
          if ok {
            unicode := 0x10000 + unicode % 0x400 * 0x400 + second % 0x400;
            next := i + 10;
          }
        } else {
          ok := AddError(SecondEscapeExpected);
        }
      }
    }

    /** The escape sequence whose backslash is at i; next is where it ends. */
    method DecodeEscape(text: string, i: nat, end: nat) returns (ok: bool, bytes: string, next: nat)
      requires i < end <= |text|
      modifies this`errors
      ensures i <= next <= end && (ok ==> i < next)
      ensures Reports(ok, EscapeAt(text[i..end]), (bytes, next - i), old(errors))
    {
      ghost var b := text[i..end];
      bytes, next := "", i;
      if i + 1 == end {
        ok := AddError(EmptyEscape);
        return;
      }
      var escape := text[i + 1];
      assert b[1] == escape && b[2..] == text[i + 2..end];
      if escape == 'u' {
        var unicode, after;
        ok, unicode, after := DecodeUnicodeCodePoint(text, i + 2, end);
        if ok {
          bytes, next := Utf8(unicode), after;
        }
      } else {
        match SimpleEscape(escape)
        case Some(d) => ok, bytes, next := true, [d], i + 2;
        case None => ok := AddError(BadEscape);
      }
    }

    method DecodeStringTok(text: string) returns (ok: bool, decoded: string)
      requires |text| >= 2
      modifies this`errors
      ensures Reports(ok, DecodeString(text), decoded, old(errors))
    {
      decoded := "";
      var i, end := 1, |text| - 1;
      PrependEmpty(DecodeString(text));
      while i != end
        invariant 1 <= i <= end && errors == old(errors)
        invariant DecodeString(text) == Prepend(decoded, DecodeBody(text[i..end]))
        decreases end - i
      {
        ghost var b := text[i..end];
        var c := text[i];
        if c == '"' {
          break;
        } else if c == '\\' {
          var bytes, next;
          ok, bytes, next := DecodeEscape(text, i, end);
          if !ok {
            return;
          }
          assert b[next - i..] == text[next..end];
          PrependTwice(decoded, bytes, DecodeBody(text[next..end]));
          decoded := decoded + bytes;
          i := next;
        } else {
          assert b[1..] == text[i + 1..end];
          PrependTwice(decoded, [c], DecodeBody(text[i + 1..end]));
          decoded := decoded + [c];
          i := i + 1;
        }
      }
      ok := true;
      assert decoded + "" == decoded;
    }

    static lemma PrependEmpty(r: Decoded<string>)
      ensures Prepend("", r) == r
    {
      assert r.Good? ==> "" + r.value == r.value;
    }

    static lemma PrependTwice(a: string, b: string, r: Decoded<string>)
      ensures Prepend(a, Prepend(b, r)) == Prepend(a + b, r)
    {
      if r.Good? {
        assert a + (b + r.value) == a + b + r.value;
      }
    }

    // ---------- Values ----------

    /** The value on top of the stack is the one being read. */
    ghost function Top(): (v: Value)
      requires nodes != []
      reads this
    {
      nodes[|nodes| - 1]
    }

    method SetCurrent(v: Value)
      requires nodes != []
      modifies this`nodes
      ensures nodes == old(nodes[..|nodes| - 1]) + [v]
    {
      nodes := nodes[..|nodes| - 1] + [v];
    }

    /** The outcome of reading: only the top of the stack has changed, and the errors were appended. */
    ghost predicate Did(ok: bool, r: Read, below: seq<Value>, before: seq<Error>)
      reads this
    {
      && Valid()
      && ok == r.ok
      && nodes == below + [r.value]
      && Rest() == r.rest
      && errors == before + r.errors
    }

    method ReadScalar(kind: TokenType, text: string) returns (ok: bool)
      requires nodes != [] && (kind == Number || (kind == String && |text| >= 2))
      modifies this`errors, this`nodes
      ensures var d := if kind == Number then DecodeNumber(text, dd) else Text(DecodeString(text));
              var r := Scalar(d, old(Top()), "");
              ok == r.ok && nodes == old(nodes[..|nodes| - 1]) + [r.value] && errors == old(errors) + r.errors
    {
      assert nodes == nodes[..|nodes| - 1] + [Top()];
      assert errors + [] == errors;
      if kind == Number {
        var v;
        ok, v := DecodeNumberTok(text);
        if ok {
          SetCurrent(v);
        }
      } else {
        var s;
        ok, s := DecodeStringTok(text);
        if ok {
          SetCurrent(Str(CStr(s)));
        }
      }
    }

    method ReadValueTok() returns (ok: bool)
      requires Valid() && nodes != []
      modifies this`current, this`errors, this`nodes
      ensures Did(ok, ReadValue(old(Rest()), old(Top()), dd), old(nodes[..|nodes| - 1]), old(errors))
      decreases |doc| - current, 0
    {
      ghost var s, was, below := Rest(), Top(), nodes[..|nodes| - 1];
      assert nodes == below + [was] && errors + [] == errors;
      var kind, start := SkipCommentToks();
      StringTokenLength(s);
      ok := true;
      if kind == ObjectBegin {
        ok := ReadObjectTok();
      } else if kind == ArrayBegin {
        ok := ReadArrayTok();
      } else if kind == Number || kind == String {
        ok := ReadScalar(kind, doc[start..current]);
      } else if kind == True || kind == False {
        SetCurrent(Bool(kind == True));
      } else if kind == NullToken {
        SetCurrent(Null);
      } else {
        ok := AddError(ValueExpected);
      }
    }

    /** Push a child, read into it, and pop it again: the stack below is untouched. */
    method ReadChild(child: Value) returns (ok: bool, v: Value)
      requires Valid()
      modifies this`current, this`errors, this`nodes
      ensures Valid() && nodes == old(nodes)
      ensures var r := ReadValue(old(Rest()), child, dd);
              ok == r.ok && v == r.value && Rest() == r.rest && errors == old(errors) + r.errors
      decreases |doc| - current, 1
    {
      ghost var below := nodes;
      nodes := nodes + [child];
      assert nodes[..|nodes| - 1] == below;
      ok := ReadValueTok();
      v := nodes[|nodes| - 1];
      nodes := nodes[..|nodes| - 1];
    }

    method AddErrorAndRecover(e: Error, until: TokenType) returns (ok: bool)
      requires Valid()
      modifies this`current, this`errors
      ensures Valid() && Rest() == Recover(old(Rest()), until) && errors == old(errors) + [e] && !ok
    {
      var _ := AddError(e);
      ok := RecoverFromError(until);
    }

    /** A string token has its two quotes. */
    static lemma {:induction false} StringTokenLength(s: string)
      ensures SkipComments(s).kind == String ==> |SkipComments(s).text| >= 2
      decreases |s|
    {
      var t := SkipSpaces(s);
      if ReadToken(s).kind == Comment {
        StringTokenLength(ReadToken(s).rest);
      } else if t != "" && t[0] == '"' && StringCloses(t, 1) {
        ClosedAdvances(t, 1);
      }
    }

    static lemma {:induction false} ClosedAdvances(s: string, i: nat)
      requires i <= |s| && StringCloses(s, i)
      ensures StringEnd(s, i) > i
    {
    }

    method ReadArrayTok() returns (ok: bool)
      requires Valid() && nodes != []
      modifies this`current, this`errors, this`nodes
      ensures Did(ok, ReadArray(old(Rest()), dd), old(nodes[..|nodes| - 1]), old(errors))
      decreases |doc| - current, 4
    {
      ghost var below := nodes[..|nodes| - 1];
      assert errors + [] == errors;
      SetCurrent(Arr([]));
      SkipBlanks();
      if current < |doc| && doc[current] == ']' {
        ghost var s := Rest();
        var _, _ := ReadTok();
        return true;
      }
      ok := ReadItemsTok();
    }

    /** One element and the separator after it. */
    method ReadItemTok(items: seq<Value>) returns (done: bool, ok: bool, all: seq<Value>)
      requires Valid() && nodes != [] && Top() == Arr(items)
      modifies this`current, this`errors, this`nodes
      ensures Valid() && old(current) <= current
      ensures done ==> Did(ok, ReadItems(old(Rest()), items, dd), old(nodes[..|nodes| - 1]), old(errors))
      ensures !done ==>
                errors == old(errors) && nodes == old(nodes[..|nodes| - 1]) + [Arr(all)] && old(current) < current &&
                ReadItems(old(Rest()), items, dd) == ReadItems(Rest(), all, dd)
      decreases |doc| - current, 2
    {
      assert errors + [] == errors;
      var v;
      ok, v := ReadChild(Null);
      all := items + [v];
      SetCurrent(Arr(all));
      if !ok {
        ok := RecoverFromError(ArrayEnd);
        return true, ok, all;
      }
      var kind, start := SkipCommentToks();
      if kind != ArraySeparator && kind != ArrayEnd {
        ok := AddErrorAndRecover(MissingCommaOrBracket, ArrayEnd);
        return true, ok, all;
      }
      done := kind == ArrayEnd;
    }

    /** The loop over the elements of the array on top of the stack, which is empty. */
    method ReadItemsTok() returns (ok: bool)
      requires Valid() && nodes != [] && Top() == Arr([])
      modifies this`current, this`errors, this`nodes
      ensures Did(ok, ReadItems(old(Rest()), [], dd), old(nodes[..|nodes| - 1]), old(errors))
      decreases |doc| - current, 3
    {
      ghost var below, r := nodes[..|nodes| - 1], ReadItems(Rest(), [], dd);
      assert nodes == below + [Arr([])];
      var items := [];
      while true
        invariant Valid() && errors == old(errors) && nodes == below + [Arr(items)] && old(current) <= current
        invariant ReadItems(Rest(), items, dd) == r
        decreases |doc| - current
      {
        assert nodes[..|nodes| - 1] == below;
        var done;
        done, ok, items := ReadItemTok(items);
        if done {
          return;
        }
      }
    }

    /** The name of the next member and its colon, unless the object ends here. */
    method ReadNameTok(members: seq<Member>, last: string) returns (done: bool, ok: bool, name: string)
      requires Valid() && nodes != [] && Top() == Obj(members)
      modifies this`current, this`errors
      ensures Valid() && old(current) <= current
      ensures done ==> Did(ok, ReadMembers(old(Rest()), members, last, dd), nodes[..|nodes| - 1], old(errors))
      ensures !done ==> errors == old(errors) && old(current) < current
                        && ReadMembers(old(Rest()), members, last, dd) == ReadMember(Rest(), members, name, dd)
    {
      ghost var s := Rest();
      assert nodes == nodes[..|nodes| - 1] + [Obj(members)] && errors + [] == errors;
      done, name := true, "";
      var kind, start := SkipCommentToks();
      if kind == ObjectEnd && last == "" {
        return true, true, "";
      }
      if kind != String {
        ok := AddErrorAndRecover(MissingBraceOrName, ObjectEnd);
        return;
      }
      StringTokenLength(s);
      ok, name := DecodeStringTok(doc[start..current]);
      if !ok {
        ok := RecoverFromError(ObjectEnd);
        return;
      }
      kind, start := ReadTok();
      if kind != MemberSeparator {
        ok := AddErrorAndRecover(MissingColon, ObjectEnd);
        return;
      }
      done := false;
    }

    /** The value of a member and the separator after it. */
    method ReadMemberTok(members: seq<Member>, name: string) returns (done: bool, ok: bool, all: seq<Member>)
      requires Valid() && nodes != [] && Top() == Obj(members)
      modifies this`current, this`errors, this`nodes
      ensures Valid() && old(current) <= current
      ensures done ==> Did(ok, ReadMember(old(Rest()), members, name, dd), old(nodes[..|nodes| - 1]), old(errors))
      ensures !done ==> errors == old(errors) && nodes == old(nodes[..|nodes| - 1]) + [Obj(all)]
                        && ReadMember(old(Rest()), members, name, dd) == ReadMembers(Rest(), all, name, dd)
      decreases |doc| - current, 2
    {
      assert errors + [] == errors;
      var v;
      ok, v := ReadChild(Lookup(members, CStr(name)));
      all := Put(members, CStr(name), v);
      SetCurrent(Obj(all));
      if !ok {
        ok := RecoverFromError(ObjectEnd);
        return true, ok, all;
      }
      var kind, start := ReadTok();
      if kind != ObjectEnd && kind != ArraySeparator && kind != Comment {
        ok := AddErrorAndRecover(MissingCommaOrBrace, ObjectEnd);
        return true, ok, all;
      }
      if kind == Comment {
        kind, start := SkipCommentToks();
      }
      done := kind == ObjectEnd;
    }

    method ReadObjectTok() returns (ok: bool)
      requires Valid() && nodes != []
      modifies this`current, this`errors, this`nodes
      ensures Did(ok, ReadMembers(old(Rest()), [], "", dd), old(nodes[..|nodes| - 1]), old(errors))
      decreases |doc| - current, 3
    {
      ghost var below, r := nodes[..|nodes| - 1], ReadMembers(Rest(), [], "", dd);
      SetCurrent(Obj([]));
      var members, name := [], "";
      while true
        invariant Valid() && errors == old(errors) && nodes == below + [Obj(members)] && old(current) <= current
        invariant ReadMembers(Rest(), members, name, dd) == r
        decreases |doc| - current
      {
        assert nodes[..|nodes| - 1] == below;
        var done;
        done, ok, name := ReadNameTok(members, name);
        if done {
          return;
        }
        done, ok, members := ReadMemberTok(members, name);
        if done {
          return;
        }
      }
    }

    /** Parse a document into root. */
    method ParseDoc(document: string, was: Value) returns (successful: bool, root: Value)
      modifies this
      ensures Valid() && nodes == [root] && 0 <= current <= |doc|
      ensures Read(successful, root, Rest(), errors) == Parse(document, was, dd)
      ensures if successful then errors == [] else |errors| == 1
    {
      doc, current, errors := document, 0, [];
      nodes := [was];
      assert doc[0..] == doc && nodes[..0] == [];
      successful := ReadValueTok();
      var _, _ := SkipCommentToks();
      root := nodes[0];
    }
  }
}
