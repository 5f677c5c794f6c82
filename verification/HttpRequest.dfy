/** The incremental HTTP request parser: its states, one character, and any number of characters. */
module HttpRequest {

  datatype Header = Header(name: string, value: string)

  datatype Request = Request(verb: string, uri: string, major: nat, minor: nat, headers: seq<Header>)

  const NO_REQUEST := Request("", "", 0, 0, [])

  datatype Outcome = Good | Bad | Indeterminate

  datatype State =
    | MethodStart | Method | Uri
    | VersionH | VersionT1 | VersionT2 | VersionP | VersionSlash
    | MajorStart | Major | MinorStart | Minor
    | Newline1 | LineStart | Lws | Name | SpaceBeforeValue | Value | Newline2 | Newline3

  // ---------- Characters ----------

  predicate IsChar(c: char) {
    c as int <= 127
  }

  predicate IsCtl(c: char) {
    c as int <= 31 || c as int == 127
  }

  predicate IsTspecial(c: char) {
    c in "()<>@,;:\\\"/[]?={} \t"
  }

  predicate IsDigit(c: char) {
    '0' <= c <= '9'
  }

  predicate IsToken(c: char) {
    IsChar(c) && !IsCtl(c) && !IsTspecial(c)
  }

  /** The characters of a token, by their codes: section 2.2 of RFC 1945. */
  lemma TokenCodes(c: char)
    ensures var n := c as int;
            IsToken(c) <==> n == 33 || 35 <= n <= 39 || 42 <= n <= 43 || 45 <= n <= 46 || 48 <= n <= 57 ||
                            65 <= n <= 90 || 94 <= n <= 122 || n == 124 || n == 126
  {
    var special := "()<>@,;:\\\"/[]?={} \t";
    assert special[0] == '(' && special[1] == ')' && special[2] == '<' && special[3] == '>' && special[4] == '@';
    assert special[5] == ',' && special[6] == ';' && special[7] == ':' && special[8] == '\\' && special[9] == '"';
    assert special[10] == '/' && special[11] == '[' && special[12] == ']' && special[13] == '?' && special[14] == '=';
    assert special[15] == '{' && special[16] == '}' && special[17] == ' ' && special[18] == '\t';
  }

  predicate IsBlank(c: char) {
    c == ' ' || c == '\t'
  }

  function DigitOf(c: char): (d: nat)
    requires IsDigit(c)
  {
    (c - '0') as int
  }

  // ---------- One character ----------

  /** The states in which the parser writes to the last header. */
  predicate InHeader(st: State) {
    st.Lws? || st.Name? || st.SpaceBeforeValue? || st.Value? || st.Newline2?
  }

  datatype ConfigData = Config(state: State, req: Request) {
    predicate Ok() {
      InHeader(state) ==> req.headers != []
    }
  }

  /** A parser and its request; in a header there is a last header. */
  type Config = c: ConfigData | c.Ok() witness Config(MethodStart, NO_REQUEST)

  datatype Move = Move(result: Outcome, next: Config)

  function Stay(c: Config): (m: Move) {
    Move(Bad, c)
  }

  function Go(st: State, req: Request): (m: Move)
    requires InHeader(st) ==> req.headers != []
  {
    Move(Indeterminate, Config(st, req))
  }

  /** The request with a character more in the name of its last header. */
  function NameMore(req: Request, c: char): (r: Request)
    requires req.headers != []
    ensures r.headers != []
  {
    var n := |req.headers| - 1;
    req.(headers := req.headers[n := req.headers[n].(name := req.headers[n].name + [c])])
  }

  function ValueMore(req: Request, c: char): (r: Request)
    requires req.headers != []
    ensures r.headers != []
  {
    var n := |req.headers| - 1;
    req.(headers := req.headers[n := req.headers[n].(value := req.headers[n].value + [c])])
  }

  /** A state that wants one character only. */
  function Want(c: Config, input: char, wanted: char, st: State): (m: Move)
    requires InHeader(st) ==> c.req.headers != []
  {
    if input == wanted then Go(st, c.req) else Stay(c)
  }

  function MajorMore(req: Request, c: char): (r: Request)
    requires IsDigit(c)
  {
    req.(major := req.major * 10 + DigitOf(c))
  }

  function MinorMore(req: Request, c: char): (r: Request)
    requires IsDigit(c)
  {
    req.(minor := req.minor * 10 + DigitOf(c))
  }

  function NextInLine(c: Config, input: char): (m: Move) {
    var req := c.req;
    match c.state
    case MethodStart =>
      if !IsToken(input) then Stay(c) else Go(Method, req.(verb := req.verb + [input]))
    case Method =>
      if input == ' ' then Go(Uri, req)
      else if !IsToken(input) then Stay(c) else Go(Method, req.(verb := req.verb + [input]))
    case Uri =>
      if input == ' ' then Go(VersionH, req)
      else if IsCtl(input) then Stay(c) else Go(Uri, req.(uri := req.uri + [input]))
    case VersionH => Want(c, input, 'H', VersionT1)
    case VersionT1 => Want(c, input, 'T', VersionT2)
    case VersionT2 => Want(c, input, 'T', VersionP)
    case VersionP => Want(c, input, 'P', VersionSlash)
    case VersionSlash =>
      if input == '/' then Go(MajorStart, req.(major := 0, minor := 0)) else Stay(c)
    case MajorStart =>
      if IsDigit(input) then Go(Major, MajorMore(req, input)) else Stay(c)
    case Major =>
      if input == '.' then Go(MinorStart, req)
      else if IsDigit(input) then Go(Major, MajorMore(req, input)) else Stay(c)
    case MinorStart =>
      if IsDigit(input) then Go(Minor, MinorMore(req, input)) else Stay(c)
    case Minor =>
      if input == '\r' then Go(Newline1, req)
      else if IsDigit(input) then Go(Minor, MinorMore(req, input)) else Stay(c)
    case _ => Stay(c)
  }

  function NextInHeaders(c: Config, input: char): (m: Move) {
    var req := c.req;
    match c.state
    case Newline1 => Want(c, input, '\n', LineStart)
    case LineStart =>
      if input == '\r' then Go(Newline3, req)
      else if req.headers != [] && IsBlank(input) then Go(Lws, req)
      else if !IsToken(input) then Stay(c)
      else Go(Name, req.(headers := req.headers + [Header([input], "")]))
    case Lws =>
      if input == '\r' then Go(Newline2, req)
      else if IsBlank(input) then Go(Lws, req)
      else if IsCtl(input) then Stay(c) else Go(Value, ValueMore(req, input))
    case Name =>
      if input == ':' then Go(SpaceBeforeValue, req)
      else if !IsToken(input) then Stay(c) else Go(Name, NameMore(req, input))
    case SpaceBeforeValue => Want(c, input, ' ', Value)
    case Value =>
      if input == '\r' then Go(Newline2, req)
      else if IsCtl(input) then Stay(c) else Go(Value, ValueMore(req, input))
    case Newline2 => Want(c, input, '\n', LineStart)
    case Newline3 => Move(if input == '\n' then Good else Bad, c)
    case _ => Stay(c)
  }

  predicate InLine(st: State) {
    match st
    case MethodStart | Method | Uri | VersionH | VersionT1 | VersionT2 | VersionP | VersionSlash => true
    case MajorStart | Major | MinorStart | Minor => true
    case _ => false
  }

  function Next(c: Config, input: char): (m: Move) {
    if InLine(c.state) then NextInLine(c, input) else NextInHeaders(c, input)
  }

  // ---------- Any number of characters ----------

  datatype Trace = Trace(result: Outcome, consumed: nat, last: Config)

  /** Up to and with the character that settles the outcome. */
  function Feed(c: Config, input: string): (t: Trace)
    ensures t.consumed <= |input| && (t.result == Indeterminate ==> t.consumed == |input|)
    decreases |input|
  {
    if input == [] then Trace(Indeterminate, 0, c)
    else
      var m := Next(c, input[0]);
      if m.result != Indeterminate then Trace(m.result, 1, m.next)
      else
        var t := Feed(m.next, input[1..]);
        Trace(t.result, t.consumed + 1, t.last)
  }

  /** A buffer after one that settles nothing goes on where that ended; after one that does it is not looked at. */
  lemma {:induction false} FeedConcat(c: Config, a: string, b: string)
    ensures var t := Feed(c, a);
            Feed(c, a + b) ==
            if t.result != Indeterminate then t
            else Trace(Feed(t.last, b).result, |a| + Feed(t.last, b).consumed, Feed(t.last, b).last)
    decreases |a|
  {
    if a == [] {
      assert a + b == b;
    } else {
      assert (a + b)[1..] == a[1..] + b;
      var m := Next(c, a[0]);
      if m.result == Indeterminate {
        FeedConcat(m.next, a[1..], b);
      }
    }
  }
}
