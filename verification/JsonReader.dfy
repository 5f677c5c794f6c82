/**
  What the JSON reader computes, as functions of the text that is left to read:
  tokens, strings, numbers, values, and the recovery from errors.
*/
module JsonReader {
  import opened JsonValue
  import opened JsonText

  datatype Option<T> = None | Some(value: T)

  /** The reader of doubles (sscanf with "%lf"), which is not modelled here. */
  type Scanf = string -> Option<real>

  datatype TokenType =
    | ObjectBegin | ObjectEnd | ArrayBegin | ArrayEnd
    | String | Number | True | False | NullToken
    | ArraySeparator | MemberSeparator
    | Comment | EndOfStream | ErrorToken

  datatype Error =
    | ValueExpected
    | NotANumber
    | EmptyEscape
    | BadEscape
    | FourDigitsExpected
    | HexDigitExpected
    | SixCharactersExpected
    | SecondEscapeExpected
    | MissingColon
    | MissingCommaOrBrace
    | MissingBraceOrName
    | MissingCommaOrBracket

  /** A token, its text, and the text after it. */
  datatype Token = Token(kind: TokenType, text: string, rest: string)

  function SkipSpaces(s: string): (r: string)
    ensures |r| <= |s|
    ensures r != "" ==> !IsSpace(r[0])
  {
    if s != "" && IsSpace(s[0]) then SkipSpaces(s[1..]) else s
  }

  predicate IsNumberChar(c: char) {
    '0' <= c <= '9' || c == '.' || c == 'e' || c == 'E' || c == '+' || c == '-'
  }

  function NumberEnd(s: string, i: nat): (e: nat)
    requires i <= |s|
    ensures i <= e <= |s|
    decreases |s| - i
  {
    if i < |s| && IsNumberChar(s[i]) then NumberEnd(s, i + 1) else i
  }

  /** Where the loop over a C-style comment stops: at the final '/', or at the end of the text. */
  function CommentEnd(s: string, i: nat): (e: nat)
    requires i <= |s|
    ensures i <= e <= |s|
    decreases |s| - i
  {
    if i == |s| then i
    else if s[i] == '*' && i + 1 < |s| && s[i + 1] == '/' then i + 1
    else CommentEnd(s, i + 1)
  }

  function LineEnd(s: string, i: nat): (e: nat)
    requires i <= |s|
    ensures i <= e <= |s|
    decreases |s| - i
  {
    if i == |s| then i
    else if s[i] == '\r' || s[i] == '\n' then i + 1
    else LineEnd(s, i + 1)
  }

  function Cut(kind: TokenType, s: string, n: nat): (t: Token)
    requires n <= |s|
  {
    Token(kind, s[..n], s[n..])
  }

  /** One of the fixed words: if it does not match, only its first character is read. */
  function Keyword(kind: TokenType, word: string, s: string): (t: Token)
    requires s != "" && word != ""
    ensures |t.rest| < |s|
  {
    if |word| <= |s| && s[1..|word|] == word[1..] then Cut(kind, s, |word|) else Cut(ErrorToken, s, 1)
  }

  function ReadComment(s: string): (t: Token)
    requires s != ""
    ensures |t.rest| < |s|
  {
    if |s| == 1 then Cut(ErrorToken, s, 1)
    else if s[1] == '*' then
      var e := CommentEnd(s, 2);
      if e == |s| then Cut(ErrorToken, s, e) else Cut(if s[e] == '/' then Comment else ErrorToken, s, e + 1)
    else if s[1] == '/' then Cut(Comment, s, LineEnd(s, 2))
    else Cut(ErrorToken, s, 2)
  }

  /** The token at the start of a text that does not start with white space. */
  function TokenAt(s: string): (t: Token)
    ensures |t.rest| <= |s|
    ensures t.kind != EndOfStream ==> |t.rest| < |s|
    ensures s != "" ==> |t.rest| < |s|
  {
    if s == "" then Token(EndOfStream, "", "")
    else
      var c := s[0];
      if c == '{' then Cut(ObjectBegin, s, 1)
      else if c == '}' then Cut(ObjectEnd, s, 1)
      else if c == '[' then Cut(ArrayBegin, s, 1)
      else if c == ']' then Cut(ArrayEnd, s, 1)
      else if c == '"' then Cut(if StringCloses(s, 1) then String else ErrorToken, s, StringEnd(s, 1))
      else if c == '/' then ReadComment(s)
      else if '0' <= c <= '9' || c == '-' then Cut(Number, s, NumberEnd(s, 1))
      else if c == 't' then Keyword(True, "true", s)
      else if c == 'f' then Keyword(False, "false", s)
      else if c == 'n' then Keyword(NullToken, "null", s)
      else if c == ',' then Cut(ArraySeparator, s, 1)
      else if c == ':' then Cut(MemberSeparator, s, 1)
      else if c == NUL then Cut(EndOfStream, s, 1)
      else Cut(ErrorToken, s, 1)
  }

  function ReadToken(s: string): (t: Token)
    ensures |t.rest| <= |s|
    ensures t.kind != EndOfStream ==> |t.rest| < |s|
  {
    TokenAt(SkipSpaces(s))
  }

  /** The next token that is not a comment. */
  function SkipComments(s: string): (t: Token)
    ensures |t.rest| <= |s|
    ensures t.kind != EndOfStream ==> |t.rest| < |s|
    ensures t.kind != Comment
    decreases |s|
  {
    var t := ReadToken(s);
    if t.kind == Comment then SkipComments(t.rest) else t
  }

  /** The text left after skipping to the given token, or to the end. */
  function Recover(s: string, until: TokenType): (r: string)
    ensures |r| <= |s|
    decreases |s|
  {
    var t := ReadToken(s);
    if t.kind == until || t.kind == EndOfStream then t.rest else Recover(t.rest, until)
  }

  // ---------- Strings ----------

  datatype Decoded<T> = Good(value: T) | Bad(error: Error)

  function HexValue(c: char): (v: Option<nat>) {
    if '0' <= c <= '9' then Some((c - '0') as nat)
    else if 'a' <= c <= 'f' then Some((c - 'a') as nat + 10)
    else if 'A' <= c <= 'F' then Some((c - 'A') as nat + 10)
    else None
  }

  /** The value of n hexadecimal digits after u. */
  function Hex(s: string, n: nat, u: nat): (r: Decoded<nat>)
    requires n <= |s|
  {
    if n == 0 then Good(u)
    else match HexValue(s[0])
      case None => Bad(HexDigitExpected)
      case Some(d) => Hex(s[1..], n - 1, u * 16 + d)
  }

  function EscapeSequence(s: string): (r: Decoded<nat>)
    ensures r.Good? ==> |s| >= 4
  {
    if |s| < 4 then Bad(FourDigitsExpected) else Hex(s, 4, 0)
  }

  /** A code point and the number of characters it took, after "\u". */
  function CodePoint(s: string): (r: Decoded<(nat, nat)>)
    ensures r.Good? ==> r.value.1 <= |s|
  {
    match EscapeSequence(s)
    case Bad(e) => Bad(e)
    case Good(u) =>
      if !(0xD800 <= u <= 0xDBFF) then Good((u, 4))
      else if |s| < 10 then Bad(SixCharactersExpected)
      else if s[4] != '\\' || s[5] != 'u' then Bad(SecondEscapeExpected)
      else match EscapeSequence(s[6..])
        case Bad(e) => Bad(e)
        case Good(v) => Good((0x10000 + u % 0x400 * 0x400 + v % 0x400, 10))
  }

  function Byte(n: nat): (c: char)
    requires n < 256
  {
    n as char
  }

  /** The UTF-8 form of a code point; nothing beyond the last one. */
  function Utf8(cp: nat): (r: string) {
    if cp <= 0x7f then [Byte(cp)]
    else if cp <= 0x7ff then [Byte(0xC0 + cp / 64), Byte(0x80 + cp % 64)]
    else if cp <= 0xffff then [Byte(0xE0 + cp / 4096), Byte(0x80 + cp / 64 % 64), Byte(0x80 + cp % 64)]
    else if cp <= 0x10ffff then
      [Byte(0xF0 + cp / 262144), Byte(0x80 + cp / 4096 % 64), Byte(0x80 + cp / 64 % 64), Byte(0x80 + cp % 64)]
    else ""
  }

  function Prepend(a: string, r: Decoded<string>): (q: Decoded<string>) {
    match r
    case Good(b) => Good(a + b)
    case Bad(e) => Bad(e)
  }

  function SimpleEscape(c: char): (r: Option<char>) {
    if c == '"' || c == '/' || c == '\\' then Some(c)
    else if c == 'b' then Some('\U{0008}')
    else if c == 'f' then Some('\U{000C}')
    else if c == 'n' then Some('\n')
    else if c == 'r' then Some('\r')
    else if c == 't' then Some('\t')
    else None
  }

  /** The bytes of the escape sequence at the start of b, and its length. */
  function EscapeAt(b: string): (r: Decoded<(string, nat)>)
    requires b != ""
    ensures r.Good? ==> 1 <= r.value.1 <= |b|
  {
    if |b| == 1 then Bad(EmptyEscape)
    else if b[1] == 'u' then
      match CodePoint(b[2..])
      case Bad(e) => Bad(e)
      case Good(p) => Good((Utf8(p.0), 2 + p.1))
    else match SimpleEscape(b[1])
      case None => Bad(BadEscape)
      case Some(c) => Good(([c], 2))
  }

  /** The bytes denoted by the inside of a string literal. */
  function DecodeBody(b: string): (r: Decoded<string>)
    decreases |b|
  {
    if b == "" || b[0] == '"' then Good("")
    else if b[0] != '\\' then Prepend([b[0]], DecodeBody(b[1..]))
    else match EscapeAt(b)
      case Bad(e) => Bad(e)
      case Good(p) => Prepend(p.0, DecodeBody(b[p.1..]))
  }

  function DecodeString(text: string): (r: Decoded<string>) {
    if |text| < 2 then Good("") else DecodeBody(text[1..|text| - 1])
  }

  // ---------- Numbers ----------

  predicate IsDigit(c: char) {
    '0' <= c <= '9'
  }

  /** A fraction, an exponent, or a sign that is not the first character. */
  predicate LooksLikeDouble(text: string) {
    exists i: nat :: i < |text| && DoubleAt(text, i)
  }

  predicate DoubleAt(text: string, i: nat)
    requires i < |text|
  {
    text[i] == '.' || text[i] == 'e' || text[i] == 'E' || text[i] == '+' || (text[i] == '-' && i > 0)
  }

  datatype Accumulated = BadDigit | TooBig | Within(n: nat)

  /** The digit loop: it gives up as soon as the next digit would pass the limit. */
  function Accumulate(ds: string, value: nat, limit: nat): (r: Accumulated) {
    if ds == "" then Within(value)
    else if !IsDigit(ds[0]) then BadDigit
    else
      var d := (ds[0] - '0') as nat;
      if value > limit / 10 || (value == limit / 10 && (|ds| > 1 || d > limit % 10)) then TooBig
      else Accumulate(ds[1..], value * 10 + d, limit)
  }

  function DecodeDouble(text: string, dd: Scanf): (r: Decoded<Value>) {
    match dd(text)
    case Some(x) => Good(Real(x))
    case None => Bad(NotANumber)
  }

  function LimitOf(negative: bool): (n: nat) {
    if negative then MAX_LARGEST_INT + 1 else MAX_LARGEST_UINT
  }

  function IntegerValue(negative: bool, n: nat): (v: Value) {
    if negative then Int(0 - n) else if n <= MAX_INT then Int(n) else UInt(n)
  }

  function DecodeNumber(text: string, dd: Scanf): (r: Decoded<Value>)
  {
    if LooksLikeDouble(text) then DecodeDouble(text, dd)
    else
      var negative := text != "" && text[0] == '-';
      match Accumulate(if negative then text[1..] else text, 0, LimitOf(negative))
      case BadDigit => Bad(NotANumber)
      case TooBig => DecodeDouble(text, dd)
      case Within(n) => Good(IntegerValue(negative, n))
  }

  // ---------- Values ----------

  /** What reading leaves: success or not, the current value, the remaining text, the errors added. */
  datatype Read = Read(ok: bool, value: Value, rest: string, errors: seq<Error>) {
    /** Success is the absence of errors; a failure is reported exactly once. */
    predicate Consistent() {
      if ok then errors == [] else |errors| == 1
    }
  }

  function Scalar(d: Decoded<Value>, old_: Value, rest: string): (r: Read)
    ensures r.Consistent() && r.rest == rest
  {
    match d
    case Good(v) => Read(true, v, rest, [])
    case Bad(e) => Read(false, old_, rest, [e])
  }

  function Text(d: Decoded<string>): (r: Decoded<Value>) {
    match d
    case Good(s) => Good(Str(CStr(s)))
    case Bad(e) => Bad(e)
  }

  /** Read a value into a place that held `was`. */
  function ReadValue(s: string, was: Value, dd: Scanf): (r: Read)
    ensures |r.rest| <= |s| && (r.ok ==> |r.rest| < |s|)
    ensures r.Consistent()
    decreases |s|, 0
  {
    var t := SkipComments(s);
    match t.kind
    case ObjectBegin => ReadMembers(t.rest, [], "", dd)
    case ArrayBegin => ReadArray(t.rest, dd)
    case Number => Scalar(DecodeNumber(t.text, dd), was, t.rest)
    case String => Scalar(Text(DecodeString(t.text)), was, t.rest)
    case True => Read(true, Bool(true), t.rest, [])
    case False => Read(true, Bool(false), t.rest, [])
    case NullToken => Read(true, Null, t.rest, [])
    case _ => Read(false, was, t.rest, [ValueExpected])
  }

  function ReadArray(s: string, dd: Scanf): (r: Read)
    ensures |r.rest| <= |s|
    ensures r.Consistent()
    decreases |s|, 2
  {
    var t := SkipSpaces(s);
    if t != "" && t[0] == ']' then Read(true, Arr([]), t[1..], []) else ReadItems(t, [], dd)
  }

  /** The loop over array elements, with the elements read so far. */
  function ReadItems(s: string, items: seq<Value>, dd: Scanf): (r: Read)
    ensures |r.rest| <= |s|
    ensures r.Consistent()
    decreases |s|, 1
  {
    var v := ReadValue(s, Null, dd);
    var all := items + [v.value];
    if !v.ok then Read(false, Arr(all), Recover(v.rest, ArrayEnd), v.errors)
    else
      var t := SkipComments(v.rest);
      if t.kind == ArrayEnd then Read(true, Arr(all), t.rest, [])
      else if t.kind == ArraySeparator then ReadItems(t.rest, all, dd)
      else Read(false, Arr(all), Recover(t.rest, ArrayEnd), [MissingCommaOrBracket])
  }

  function FailObject(ms: seq<Member>, rest: string, e: Error): (r: Read)
    ensures |r.rest| <= |rest| && !r.ok && r.Consistent()
  {
    Read(false, Obj(ms), Recover(rest, ObjectEnd), [e])
  }

  /** The loop over object members, with the members read so far and the last name. */
  function ReadMembers(s: string, ms: seq<Member>, last: string, dd: Scanf): (r: Read)
    ensures |r.rest| <= |s|
    ensures r.Consistent()
    decreases |s|, 1
  {
    var t := SkipComments(s);
    if t.kind == ObjectEnd && last == "" then Read(true, Obj(ms), t.rest, [])
    else if t.kind != String then FailObject(ms, t.rest, MissingBraceOrName)
    else match DecodeString(t.text)
      case Bad(e) => FailObject(ms, t.rest, e)
      case Good(name) =>
        var colon := ReadToken(t.rest);
        if colon.kind != MemberSeparator then FailObject(ms, colon.rest, MissingColon)
        else ReadMember(colon.rest, ms, name, dd)
  }

  /** The value of a member and what follows it. */
  function ReadMember(s: string, ms: seq<Member>, name: string, dd: Scanf): (r: Read)
    ensures |r.rest| <= |s|
    ensures r.Consistent()
    decreases |s|, 3
  {
    var v := ReadValue(s, Lookup(ms, CStr(name)), dd);
    var all := Put(ms, CStr(name), v.value);
    if !v.ok then Read(false, Obj(all), Recover(v.rest, ObjectEnd), v.errors)
    else
      var comma := ReadToken(v.rest);
      if comma.kind != ObjectEnd && comma.kind != ArraySeparator && comma.kind != Comment then
        FailObject(all, comma.rest, MissingCommaOrBrace)
      else
        var t := if comma.kind == Comment then SkipComments(comma.rest) else comma;
        if t.kind == ObjectEnd then Read(true, Obj(all), t.rest, [])
        else ReadMembers(t.rest, all, name, dd)
  }

  /** Parse a document: one value; whatever token follows it is read and ignored. */
  function Parse(doc: string, was: Value, dd: Scanf): (r: Read)
    ensures r.Consistent()
  {
    var v := ReadValue(doc, was, dd);
    v.(rest := SkipComments(v.rest).rest)
  }
}
