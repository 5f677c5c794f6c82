/** Whatever the parser finds good is a printed request. */
module HttpAccept {
  import opened HttpRequest
  import opened HttpGrammar
  import opened HttpPrint

  /** What has been read so far: finished parts in raw, and the header line that is being read. */
  datatype Part = Part(raw: Raw, line: Line)

  predicate ValidMethod(r: Raw) {
    r.verb != [] && Tokens(r.verb)
  }

  predicate ValidTarget(r: Raw) {
    ValidMethod(r) && UriText(r.uri)
  }

  predicate ValidMajor(r: Raw) {
    ValidTarget(r) && r.major != [] && Digits(r.major)
  }

  predicate ValidStart(r: Raw) {
    ValidMajor(r) && r.minor != [] && Digits(r.minor)
  }

  function Target(r: Raw): (s: string) {
    r.verb + " " + r.uri
  }

  function UpToMajor(r: Raw): (s: string) {
    Target(r) + " HTTP/" + r.major
  }

  function UpToMinor(r: Raw): (s: string) {
    UpToMajor(r) + "." + r.minor
  }

  /** The first line: its text so far and the request so far. */
  ghost predicate LineShape(st: State, r: Raw, text: string, req: Request)
    requires InLine(st) || st == Newline1
  {
    match st
    case MethodStart => text == "" && req == NO_REQUEST
    case Method => ValidMethod(r) && text == r.verb && req == Request(r.verb, "", 0, 0, [])
    case Uri => ValidTarget(r) && text == Target(r) && req == Request(r.verb, r.uri, 0, 0, [])
    case VersionH => ValidTarget(r) && text == Target(r) + " " && req == Request(r.verb, r.uri, 0, 0, [])
    case VersionT1 => ValidTarget(r) && text == Target(r) + " H" && req == Request(r.verb, r.uri, 0, 0, [])
    case VersionT2 => ValidTarget(r) && text == Target(r) + " HT" && req == Request(r.verb, r.uri, 0, 0, [])
    case VersionP => ValidTarget(r) && text == Target(r) + " HTT" && req == Request(r.verb, r.uri, 0, 0, [])
    case VersionSlash => ValidTarget(r) && text == Target(r) + " HTTP" && req == Request(r.verb, r.uri, 0, 0, [])
    case MajorStart => ValidTarget(r) && text == Target(r) + " HTTP/" && req == Request(r.verb, r.uri, 0, 0, [])
    case Major => ValidMajor(r) && text == UpToMajor(r) && req == Request(r.verb, r.uri, Num(r.major), 0, [])
    case MinorStart => ValidMajor(r) && text == UpToMajor(r) + "." && req == Request(r.verb, r.uri, Num(r.major), 0, [])
    case Minor =>
      ValidStart(r) && text == UpToMinor(r) && req == Request(r.verb, r.uri, Num(r.major), Num(r.minor), [])
    case Newline1 =>
      ValidStart(r) && text == UpToMinor(r) + "\r" && req == Request(r.verb, r.uri, Num(r.major), Num(r.minor), [])
  }

  function Body(l: Line): (s: string) {
    match l
    case Field(n, v) => n + ": " + v
    case Fold(b, t) => b + t
  }

  function Done(r: Raw): (s: string) {
    StartLine(r) + LinesText(r.lines)
  }

  /** The header lines. */
  ghost predicate HeaderShape(st: State, r: Raw, l: Line, text: string, req: Request)
    requires !InLine(st) && st != Newline1
  {
    ValidRaw(r) && (l.Fold? && InHeader(st) ==> r.lines != []) &&
    match st
    case LineStart => text == Done(r) && req == Meaning(r)
    case Newline3 => text == Done(r) + "\r" && req == Meaning(r)
    case Name =>
      l.Field? && l.name != [] && Tokens(l.name) && l.value == "" && text == Done(r) + l.name &&
      req == With(Meaning(r), AddLine(Headers(r.lines), l))
    case SpaceBeforeValue =>
      l.Field? && l.name != [] && Tokens(l.name) && l.value == "" && text == Done(r) + l.name + ":" &&
      req == With(Meaning(r), AddLine(Headers(r.lines), l))
    case Lws =>
      l.Fold? && ValidLine(l) && l.text == "" && text == Done(r) + l.blanks &&
      req == With(Meaning(r), AddLine(Headers(r.lines), l))
    case Value =>
      ValidLine(l) && (l.Fold? ==> l.text != []) && text == Done(r) + Body(l) &&
      req == With(Meaning(r), AddLine(Headers(r.lines), l))
    case Newline2 =>
      ValidLine(l) && text == Done(r) + Body(l) + "\r" &&
      req == With(Meaning(r), AddLine(Headers(r.lines), l))
  }

  ghost predicate Shape(c: Config, p: Part, text: string) {
    if InLine(c.state) || c.state == Newline1 then LineShape(c.state, p.raw, text, c.req)
    else HeaderShape(c.state, p.raw, p.line, text, c.req)
  }

  // ---------- One character in the first line ----------

  lemma TokensMore(s: string, c: char)
    requires Tokens(s) && IsToken(c)
    ensures Tokens(s + [c])
  {
  }

  lemma UriMore(s: string, c: char)
    requires UriText(s) && !IsCtl(c) && c != ' '
    ensures UriText(s + [c])
  {
  }

  lemma PlainMore(s: string, c: char)
    requires Plain(s) && !IsCtl(c)
    ensures Plain(s + [c])
  {
  }

  lemma BlanksMore(s: string, c: char)
    requires Blanks(s) && IsBlank(c)
    ensures Blanks(s + [c])
  {
  }

  lemma StepMethod(c: Config, p: Part, text: string, ch: char) returns (q: Part)
    requires (c.state == MethodStart || c.state == Method) && Shape(c, p, text) && Next(c, ch).result == Indeterminate
    ensures Shape(Next(c, ch).next, q, text + [ch])
  {
    var r := p.raw;
    if c.state == MethodStart {
      q := p.(raw := r.(verb := [ch]));
    } else if ch == ' ' {
      q := p.(raw := r.(uri := ""));
      assert Target(q.raw) == text + [ch];
    } else {
      TokensMore(r.verb, ch);
      q := p.(raw := r.(verb := r.verb + [ch]));
    }
  }

  lemma StepUri(c: Config, p: Part, text: string, ch: char) returns (q: Part)
    requires c.state == Uri && Shape(c, p, text) && Next(c, ch).result == Indeterminate
    ensures Shape(Next(c, ch).next, q, text + [ch])
  {
    var r := p.raw;
    if ch == ' ' {
      q := p;
    } else {
      UriMore(r.uri, ch);
      q := p.(raw := r.(uri := r.uri + [ch]));
      assert Target(q.raw) == text + [ch];
    }
  }

  lemma StepHttp(c: Config, p: Part, text: string, ch: char)
    requires (c.state == VersionH || c.state == VersionT1 || c.state == VersionT2 || c.state == VersionP ||
              c.state == VersionSlash)
    requires Shape(c, p, text) && Next(c, ch).result == Indeterminate
    ensures Shape(Next(c, ch).next, p, text + [ch])
  {
    var t := Target(p.raw);
    assert t + " " + "H" == t + " H" && t + " H" + "T" == t + " HT" && t + " HT" + "T" == t + " HTT";
    assert t + " HTT" + "P" == t + " HTTP" && t + " HTTP" + "/" == t + " HTTP/";
  }

  lemma StepMajor(c: Config, p: Part, text: string, ch: char) returns (q: Part)
    requires (c.state == MajorStart || c.state == Major) && Shape(c, p, text) && Next(c, ch).result == Indeterminate
    ensures Shape(Next(c, ch).next, q, text + [ch])
  {
    var r := p.raw;
    if c.state == MajorStart {
      FirstDigit(ch);
      q := p.(raw := r.(major := [ch]));
    } else if ch == '.' {
      q := p;
    } else {
      NumSnoc(r.major, ch);
      q := p.(raw := r.(major := r.major + [ch]));
      assert UpToMajor(q.raw) == text + [ch];
    }
  }

  lemma StepMinor(c: Config, p: Part, text: string, ch: char) returns (q: Part)
    requires (c.state == MinorStart || c.state == Minor) && Shape(c, p, text) && Next(c, ch).result == Indeterminate
    ensures Shape(Next(c, ch).next, q, text + [ch])
  {
    var r := p.raw;
    if c.state == MinorStart {
      FirstDigit(ch);
      q := p.(raw := r.(minor := [ch]));
    } else if ch == '\r' {
      q := p;
    } else {
      NumSnoc(r.minor, ch);
      q := p.(raw := r.(minor := r.minor + [ch]));
      assert UpToMinor(q.raw) == text + [ch];
    }
  }

  lemma StepNewline1(c: Config, p: Part, text: string, ch: char) returns (q: Part)
    requires c.state == Newline1 && Shape(c, p, text) && Next(c, ch).result == Indeterminate
    ensures Shape(Next(c, ch).next, q, text + [ch])
  {
    q := p.(raw := p.raw.(lines := []));
    assert UpToMinor(p.raw) + "\r" + "\n" == StartLine(q.raw);
    assert StartLine(q.raw) + [] == StartLine(q.raw);
  }

  // ---------- One character in the header lines ----------

  /** What a character more in the line being read does to the last header. */
  lemma NameGrows(m: Request, hs: seq<Header>, n: string, ch: char)
    ensures NameMore(With(m, AddLine(hs, Field(n, ""))), ch) == With(m, AddLine(hs, Field(n + [ch], "")))
  {
    LastMore(m, hs, n, "", ch);
  }

  lemma FieldGrows(m: Request, hs: seq<Header>, n: string, v: string, ch: char)
    ensures ValueMore(With(m, AddLine(hs, Field(n, v))), ch) == With(m, AddLine(hs, Field(n, v + [ch])))
  {
    LastMore(m, hs, n, v, ch);
  }

  lemma FoldGrows(m: Request, hs: seq<Header>, b: string, t: string, ch: char)
    requires hs != []
    ensures AddLine(hs, Fold(b, t)) != []
    ensures ValueMore(With(m, AddLine(hs, Fold(b, t))), ch) == With(m, AddLine(hs, Fold(b, t + [ch])))
  {
    var n := |hs| - 1;
    assert hs[n].value + (t + [ch]) == (hs[n].value + t) + [ch];
  }

  lemma FoldStarts(hs: seq<Header>, b: string)
    requires hs != []
    ensures AddLine(hs, Fold(b, "")) == hs
  {
    var n := |hs| - 1;
    assert hs[n].value + "" == hs[n].value;
  }

  lemma StepLineStart(c: Config, p: Part, text: string, ch: char) returns (q: Part)
    requires c.state == LineStart && Shape(c, p, text) && Next(c, ch).result == Indeterminate
    ensures Shape(Next(c, ch).next, q, text + [ch])
  {
    HeadersThere(p.raw.lines);
    if ch == '\r' {
      q := p;
    } else if IsBlank(ch) {
      q := p.(line := Fold([ch], ""));
      FoldStarts(Headers(p.raw.lines), [ch]);
    } else {
      q := p.(line := Field([ch], ""));
    }
  }

  lemma StepName(c: Config, p: Part, text: string, ch: char) returns (q: Part)
    requires (c.state == Name || c.state == SpaceBeforeValue) && Shape(c, p, text) &&
             Next(c, ch).result == Indeterminate
    ensures Shape(Next(c, ch).next, q, text + [ch])
  {
    var n := p.line.name;
    if c.state == SpaceBeforeValue {
      q := p;
      assert Done(p.raw) + n + ":" + " " == Done(p.raw) + (n + ": " + "");
    } else if ch == ':' {
      q := p;
    } else {
      TokensMore(n, ch);
      NameGrows(Meaning(p.raw), Headers(p.raw.lines), n, ch);
      q := p.(line := Field(n + [ch], ""));
      assert Done(p.raw) + n + [ch] == Done(p.raw) + (n + [ch]);
    }
  }

  lemma StepLws(c: Config, p: Part, text: string, ch: char) returns (q: Part)
    requires c.state == Lws && Shape(c, p, text) && Next(c, ch).result == Indeterminate
    ensures Shape(Next(c, ch).next, q, text + [ch])
  {
    var b, hs := p.line.blanks, Headers(p.raw.lines);
    HeadersThere(p.raw.lines);
    assert Body(p.line) == b;
    if ch == '\r' {
      q := p;
    } else if IsBlank(ch) {
      BlanksMore(b, ch);
      FoldStarts(hs, b);
      FoldStarts(hs, b + [ch]);
      q := p.(line := Fold(b + [ch], ""));
      assert Done(p.raw) + b + [ch] == Done(p.raw) + (b + [ch]);
    } else {
      FoldGrows(Meaning(p.raw), hs, b, "", ch);
      q := p.(line := Fold(b, "" + [ch]));
      assert Done(p.raw) + b + [ch] == Done(p.raw) + (b + [ch]);
    }
  }

  lemma StepValue(c: Config, p: Part, text: string, ch: char) returns (q: Part)
    requires c.state == Value && Shape(c, p, text) && Next(c, ch).result == Indeterminate
    ensures Shape(Next(c, ch).next, q, text + [ch])
  {
    var done, m, hs := Done(p.raw), Meaning(p.raw), Headers(p.raw.lines);
    if ch == '\r' {
      q := p;
    } else {
      match p.line
      case Field(n, v) =>
        PlainMore(v, ch);
        FieldGrows(m, hs, n, v, ch);
        q := p.(line := Field(n, v + [ch]));
        assert done + (n + ": " + v) + [ch] == done + (n + ": " + (v + [ch]));
      case Fold(b, t) =>
        HeadersThere(p.raw.lines);
        PlainMore(t, ch);
        FoldGrows(m, hs, b, t, ch);
        q := p.(line := Fold(b, t + [ch]));
        assert done + (b + t) + [ch] == done + (b + (t + [ch]));
    }
  }

  lemma Regroup(a: string, b: string, c: string, d: string)
    ensures a + (b + (c + d)) == a + b + c + d
  {
  }

  lemma LinesMore(r: Raw, l: Line)
    requires ValidRaw(r) && ValidLine(l) && (l.Fold? ==> r.lines != [])
    ensures var s := r.(lines := r.lines + [l]);
            ValidRaw(s) && Done(s) == Done(r) + Body(l) + "\r\n" && Headers(s.lines) == AddLine(Headers(r.lines), l)
  {
    var s := r.(lines := r.lines + [l]);
    assert s.lines[..|r.lines|] == r.lines;
    assert LineText(l) == Body(l) + "\r\n";
    Regroup(StartLine(r), LinesText(r.lines), Body(l), "\r\n");
  }

  lemma StepNewline2(c: Config, p: Part, text: string, ch: char) returns (q: Part)
    requires c.state == Newline2 && Shape(c, p, text) && Next(c, ch).result == Indeterminate
    ensures Shape(Next(c, ch).next, q, text + [ch])
  {
    LinesMore(p.raw, p.line);
    q := p.(raw := p.raw.(lines := p.raw.lines + [p.line]));
    assert Done(p.raw) + Body(p.line) + "\r" + "\n" == Done(p.raw) + Body(p.line) + "\r\n";
  }

  // ---------- Any number of characters ----------

  lemma Step(c: Config, p: Part, text: string, ch: char) returns (q: Part)
    requires Shape(c, p, text) && Next(c, ch).result == Indeterminate
    ensures Shape(Next(c, ch).next, q, text + [ch])
  {
    match c.state
    case MethodStart | Method => q := StepMethod(c, p, text, ch);
    case Uri => q := StepUri(c, p, text, ch);
    case VersionH | VersionT1 | VersionT2 | VersionP | VersionSlash => StepHttp(c, p, text, ch); q := p;
    case MajorStart | Major => q := StepMajor(c, p, text, ch);
    case MinorStart | Minor => q := StepMinor(c, p, text, ch);
    case Newline1 => q := StepNewline1(c, p, text, ch);
    case LineStart => q := StepLineStart(c, p, text, ch);
    case Lws => q := StepLws(c, p, text, ch);
    case Name | SpaceBeforeValue => q := StepName(c, p, text, ch);
    case Value => q := StepValue(c, p, text, ch);
    case Newline2 => q := StepNewline2(c, p, text, ch);
    case Newline3 => q := p;
  }

  lemma LastNewline(c: Config, p: Part, text: string, ch: char)
    requires Shape(c, p, text) && Next(c, ch).result == Good
    ensures ValidRaw(p.raw) && text + [ch] == Print(p.raw) && Next(c, ch).next.req == Meaning(p.raw)
  {
    assert c.state == Newline3;
    assert Done(p.raw) + "\r" + "\n" == Print(p.raw);
  }

  /** What every undecided character keeps holds before the character that makes the outcome good. */
  lemma {:induction false} BeforeGood(inv: (Config, string) -> bool, c: Config, text: string, input: string)
    returns (d: Config, before: string, ch: char)
    requires inv(c, text) && Feed(c, input).result == Good
    requires forall e, t, x :: inv(e, t) && Next(e, x).result == Indeterminate ==> inv(Next(e, x).next, t + [x])
    ensures inv(d, before) && Next(d, ch).result == Good && Next(d, ch).next == Feed(c, input).last
    ensures before + [ch] == text + input[..Feed(c, input).consumed]
    decreases |input|
  {
    var m := Next(c, input[0]);
    if m.result == Good {
      d, before, ch := c, text, input[0];
      assert input[..1] == [input[0]];
    } else {
      d, before, ch := BeforeGood(inv, m.next, text + [input[0]], input[1..]);
      Shifted(text, input, Feed(m.next, input[1..]).consumed);
    }
  }

  lemma Shifted(text: string, input: string, n: nat)
    requires input != [] && n < |input|
    ensures text + input[..n + 1] == text + [input[0]] + input[1..][..n]
  {
  }

  ghost predicate Shaped(c: Config, text: string) {
    exists p :: Shape(c, p, text)
  }

  lemma ShapedStep(c: Config, text: string, ch: char)
    requires Shaped(c, text) && Next(c, ch).result == Indeterminate
    ensures Shaped(Next(c, ch).next, text + [ch])
  {
    var p :| Shape(c, p, text);
    var q := Step(c, p, text, ch);
  }

  lemma ShapedStart()
    ensures Shaped(Config(MethodStart, NO_REQUEST), "")
  {
    var none := Part(Raw("", "", "", "", []), Field("", ""));
    assert Shape(Config(MethodStart, NO_REQUEST), none, "");
  }

  /** The text is a request printed, and req is that request. */
  ghost predicate IsPrint(text: string, req: Request) {
    exists r :: ValidRaw(r) && Print(r) == text && Meaning(r) == req
  }

  lemma ShapedEnd(c: Config, text: string, ch: char)
    requires Shaped(c, text) && Next(c, ch).result == Good
    ensures IsPrint(text + [ch], Next(c, ch).next.req)
  {
    var p :| Shape(c, p, text);
    LastNewline(c, p, text, ch);
  }

  lemma GoodIsPrinted(input: string)
    requires Feed(Config(MethodStart, NO_REQUEST), input).result == Good
    ensures var t := Feed(Config(MethodStart, NO_REQUEST), input); IsPrint(input[..t.consumed], t.last.req)
  {
    var inv := (c: Config, text: string) => Shaped(c, text);
    ShapedStart();
    forall e, t, x | inv(e, t) && Next(e, x).result == Indeterminate ensures inv(Next(e, x).next, t + [x]) {
      ShapedStep(e, t, x);
    }
    var d, before, ch := BeforeGood(inv, Config(MethodStart, NO_REQUEST), "", input);
    ShapedEnd(d, before, ch);
    var n := Feed(Config(MethodStart, NO_REQUEST), input).consumed;
    assert "" + input[..n] == input[..n];
  }

  /** What comes after a settled outcome is not looked at. */
  lemma SettledBy(input: string, n: nat, t: Trace)
    requires n <= |input| && Feed(Config(MethodStart, NO_REQUEST), input[..n]) == t && t.result != Indeterminate
    ensures Feed(Config(MethodStart, NO_REQUEST), input) == t
  {
    FeedConcat(Config(MethodStart, NO_REQUEST), input[..n], input[n..]);
    assert input[..n] + input[n..] == input;
  }

  lemma PrintedIsGood(input: string, n: nat, req: Request)
    requires n <= |input| && IsPrint(input[..n], req)
    ensures Feed(Config(MethodStart, NO_REQUEST), input) == Trace(Good, n, Config(Newline3, req))
  {
    var r :| ValidRaw(r) && Print(r) == input[..n] && Meaning(r) == req;
    PrintParses(r);
    SettledBy(input, n, Trace(Good, n, Config(Newline3, req)));
  }

  /**
   * Over any input, the outcome is good after n characters with a request
   * exactly when the first n characters are that request printed.
   */
  lemma GoodIff(input: string, n: nat, req: Request)
    requires n <= |input|
    ensures var t := Feed(Config(MethodStart, NO_REQUEST), input);
            (t.result == Good && t.consumed == n && t.last.req == req) <==> IsPrint(input[..n], req)
  {
    if Feed(Config(MethodStart, NO_REQUEST), input).result == Good {
      GoodIsPrinted(input);
    }
    if IsPrint(input[..n], req) {
      PrintedIsGood(input, n, req);
    }
  }
}
