/** Requests as text, and that the parser reads back what is printed. */
module HttpGrammar {
  import opened HttpRequest

  // ---------- Requests as text ----------

  /** A header line, or a line that goes on with the value of the header before it. */
  datatype Line = Field(name: string, value: string) | Fold(blanks: string, text: string)

  datatype Raw = Raw(verb: string, uri: string, major: string, minor: string, lines: seq<Line>)

  predicate Tokens(s: string) {
    forall i :: 0 <= i < |s| ==> IsToken(s[i])
  }

  predicate Plain(s: string) {
    forall i :: 0 <= i < |s| ==> !IsCtl(s[i])
  }

  predicate UriText(s: string) {
    forall i :: 0 <= i < |s| ==> !IsCtl(s[i]) && s[i] != ' '
  }

  predicate Digits(s: string) {
    forall i :: 0 <= i < |s| ==> IsDigit(s[i])
  }

  predicate Blanks(s: string) {
    forall i :: 0 <= i < |s| ==> IsBlank(s[i])
  }

  predicate ValidLine(l: Line) {
    match l
    case Field(n, v) => n != [] && Tokens(n) && Plain(v)
    case Fold(b, t) => b != [] && Blanks(b) && Plain(t) && (t == [] || !IsBlank(t[0]))
  }

  predicate ValidLines(ls: seq<Line>) {
    (forall i :: 0 <= i < |ls| ==> ValidLine(ls[i])) && (ls == [] || ls[0].Field?)
  }

  predicate ValidRaw(r: Raw) {
    r.verb != [] && Tokens(r.verb) && UriText(r.uri) &&
    r.major != [] && Digits(r.major) && r.minor != [] && Digits(r.minor) && ValidLines(r.lines)
  }

  function LineText(l: Line): (s: string) {
    match l
    case Field(n, v) => n + ": " + v + "\r\n"
    case Fold(b, t) => b + t + "\r\n"
  }

  function LinesText(ls: seq<Line>): (s: string) {
    if ls == [] then [] else LinesText(ls[..|ls| - 1]) + LineText(ls[|ls| - 1])
  }

  function StartLine(r: Raw): (s: string) {
    r.verb + " " + r.uri + " HTTP/" + r.major + "." + r.minor + "\r\n"
  }

  function Print(r: Raw): (s: string) {
    StartLine(r) + LinesText(r.lines) + "\r\n"
  }

  // ---------- What a text means ----------

  /** The number that a string of digits stands for. */
  function Num(s: string): (v: nat)
    requires Digits(s)
  {
    if s == [] then 0 else Num(s[..|s| - 1]) * 10 + DigitOf(s[|s| - 1])
  }

  /** n times ten to the k. */
  function Tens(n: int, k: nat): (r: int) {
    if k == 0 then n else 10 * Tens(n, k - 1)
  }

  /** The sum of the digits, each in its place: a digit counts for its code less 48. */
  function Places(s: string): (v: int) {
    if s == [] then 0 else Tens(s[0] as int - 48, |s| - 1) + Places(s[1..])
  }

  lemma {:induction false} PlacesSnoc(s: string, c: char)
    ensures Places(s + [c]) == 10 * Places(s) + (c as int - 48)
  {
    if s == [] {
      assert [] + [c] == [c] && [c][1..] == [];
    } else {
      assert (s + [c])[1..] == s[1..] + [c];
      PlacesSnoc(s[1..], c);
    }
  }

  /** A string of digits stands for the number that it is in the decimal system. */
  lemma {:induction false} NumPlaces(s: string)
    requires Digits(s)
    ensures Num(s) == Places(s)
  {
    if s != [] {
      var n := |s| - 1;
      assert s == s[..n] + [s[n]];
      NumPlaces(s[..n]);
      PlacesSnoc(s[..n], s[n]);
    }
  }

  function AddLine(hs: seq<Header>, l: Line): (r: seq<Header>) {
    match l
    case Field(n, v) => hs + [Header(n, v)]
    case Fold(_, t) =>
      if hs == [] then [] else hs[|hs| - 1 := hs[|hs| - 1].(value := hs[|hs| - 1].value + t)]
  }

  function Headers(ls: seq<Line>): (hs: seq<Header>) {
    if ls == [] then [] else AddLine(Headers(ls[..|ls| - 1]), ls[|ls| - 1])
  }

  function Meaning(r: Raw): (req: Request)
    requires ValidRaw(r)
  {
    Request(r.verb, r.uri, Num(r.major), Num(r.minor), Headers(r.lines))
  }

  lemma {:induction false} HeadersThere(ls: seq<Line>)
    requires ValidLines(ls)
    ensures Headers(ls) == [] <==> ls == []
  {
    if |ls| > 1 {
      HeadersThere(ls[..|ls| - 1]);
    }
  }

  // ---------- Running over a text ----------

  /** The parser takes the text and is not done. */
  ghost predicate Takes(c: Config, s: string, d: Config) {
    Feed(c, s) == Trace(Indeterminate, |s|, d)
  }

  lemma TakesNothing(c: Config)
    ensures Takes(c, [], c)
  {
  }

  lemma TakesOne(c: Config, ch: char, d: Config)
    requires Next(c, ch) == Move(Indeterminate, d)
    ensures Takes(c, [ch], d)
  {
    assert [ch][1..] == [];
    TakesNothing(d);
  }

  lemma Glue(c: Config, s: string, d: Config, t: string, e: Config)
    requires Takes(c, s, d) && Takes(d, t, e)
    ensures Takes(c, s + t, e)
  {
    FeedConcat(c, s, t);
  }

  lemma TakesSnoc(c: Config, s: string, d: Config, ch: char, e: Config)
    requires Takes(c, s, d) && Next(d, ch) == Move(Indeterminate, e)
    ensures Takes(c, s + [ch], e)
  {
    TakesOne(d, ch, e);
    Glue(c, s, d, [ch], e);
  }

  // ---------- The parts of the first line ----------

  lemma {:induction false} TakesMethod(req: Request, s: string)
    requires Tokens(s)
    ensures Takes(Config(Method, req), s, Config(Method, req.(verb := req.verb + s)))
  {
    if s == [] {
      TakesNothing(Config(Method, req));
    } else {
      var n := |s| - 1;
      TakesMethod(req, s[..n]);
      assert s == s[..n] + [s[n]] && IsToken(s[n]);
      assert req.verb + s == req.verb + s[..n] + [s[n]];
      TakesSnoc(Config(Method, req), s[..n], Config(Method, req.(verb := req.verb + s[..n])), s[n],
                Config(Method, req.(verb := req.verb + s)));
    }
  }

  lemma {:induction false} TakesUri(req: Request, s: string)
    requires UriText(s)
    ensures Takes(Config(Uri, req), s, Config(Uri, req.(uri := req.uri + s)))
  {
    if s == [] {
      TakesNothing(Config(Uri, req));
    } else {
      var n := |s| - 1;
      TakesUri(req, s[..n]);
      assert s == s[..n] + [s[n]];
      assert req.uri + s == req.uri + s[..n] + [s[n]];
      TakesSnoc(Config(Uri, req), s[..n], Config(Uri, req.(uri := req.uri + s[..n])), s[n],
                Config(Uri, req.(uri := req.uri + s)));
    }
  }

  lemma NumSnoc(s: string, c: char)
    requires Digits(s) && IsDigit(c)
    ensures Digits(s + [c]) && Num(s + [c]) == Num(s) * 10 + DigitOf(c)
  {
    assert (s + [c])[..|s|] == s;
  }

  /** The digits of the version, after its first ones. */
  lemma {:induction false} TakesMajor(req: Request, first: string, s: string)
    requires Digits(first) && Digits(s) && req.major == Num(first)
    ensures Digits(first + s) && Takes(Config(Major, req), s, Config(Major, req.(major := Num(first + s))))
  {
    if s == [] {
      assert first + s == first;
      TakesNothing(Config(Major, req));
    } else {
      var n := |s| - 1;
      TakesMajor(req, first, s[..n]);
      assert s == s[..n] + [s[n]] && IsDigit(s[n]) && first + s == (first + s[..n]) + [s[n]];
      NumSnoc(first + s[..n], s[n]);
      TakesSnoc(Config(Major, req), s[..n], Config(Major, req.(major := Num(first + s[..n]))), s[n],
                Config(Major, req.(major := Num(first + s))));
    }
  }

  lemma {:induction false} TakesMinor(req: Request, first: string, s: string)
    requires Digits(first) && Digits(s) && req.minor == Num(first)
    ensures Digits(first + s) && Takes(Config(Minor, req), s, Config(Minor, req.(minor := Num(first + s))))
  {
    if s == [] {
      assert first + s == first;
      TakesNothing(Config(Minor, req));
    } else {
      var n := |s| - 1;
      TakesMinor(req, first, s[..n]);
      assert s == s[..n] + [s[n]] && IsDigit(s[n]) && first + s == (first + s[..n]) + [s[n]];
      NumSnoc(first + s[..n], s[n]);
      TakesSnoc(Config(Minor, req), s[..n], Config(Minor, req.(minor := Num(first + s[..n]))), s[n],
                Config(Minor, req.(minor := Num(first + s))));
    }
  }

  lemma FirstDigit(c: char)
    requires IsDigit(c)
    ensures Digits([c]) && Num([c]) == DigitOf(c)
  {
    assert [c][..0] == [];
  }

  lemma Split(s: string)
    requires s != []
    ensures s == [s[0]] + s[1..]
  {
  }

  lemma WholeMethod(m: string)
    requires m != [] && Tokens(m)
    ensures Takes(Config(MethodStart, NO_REQUEST), m, Config(Method, NO_REQUEST.(verb := m)))
  {
    var req := NO_REQUEST.(verb := [m[0]]);
    assert IsToken(m[0]);
    TakesOne(Config(MethodStart, NO_REQUEST), m[0], Config(Method, req));
    TakesMethod(req, m[1..]);
    Split(m);
    Glue(Config(MethodStart, NO_REQUEST), [m[0]], Config(Method, req), m[1..], Config(Method, NO_REQUEST.(verb := m)));
  }

  lemma WholeMajor(req: Request, s: string)
    requires s != [] && Digits(s) && req.major == 0
    ensures Takes(Config(MajorStart, req), s, Config(Major, req.(major := Num(s))))
  {
    var first := req.(major := DigitOf(s[0]));
    FirstDigit(s[0]);
    TakesOne(Config(MajorStart, req), s[0], Config(Major, first));
    TakesMajor(first, [s[0]], s[1..]);
    Split(s);
    Glue(Config(MajorStart, req), [s[0]], Config(Major, first), s[1..], Config(Major, req.(major := Num(s))));
  }

  lemma WholeMinor(req: Request, s: string)
    requires s != [] && Digits(s) && req.minor == 0
    ensures Takes(Config(MinorStart, req), s, Config(Minor, req.(minor := Num(s))))
  {
    var first := req.(minor := DigitOf(s[0]));
    FirstDigit(s[0]);
    TakesOne(Config(MinorStart, req), s[0], Config(Minor, first));
    TakesMinor(first, [s[0]], s[1..]);
    Split(s);
    Glue(Config(MinorStart, req), [s[0]], Config(Minor, first), s[1..], Config(Minor, req.(minor := Num(s))));
  }

  lemma TakesTwo(c: Config, x: char, d: Config, y: char, e: Config)
    requires Next(c, x) == Move(Indeterminate, d) && Next(d, y) == Move(Indeterminate, e)
    ensures Takes(c, [x, y], e)
  {
    TakesOne(c, x, d);
    TakesSnoc(c, [x], d, y, e);
  }

  lemma TakesHttp(req: Request)
    ensures Takes(Config(Uri, req), " HTTP/", Config(MajorStart, req.(major := 0, minor := 0)))
  {
    var zero := Config(MajorStart, req.(major := 0, minor := 0));
    TakesTwo(Config(Uri, req), ' ', Config(VersionH, req), 'H', Config(VersionT1, req));
    TakesTwo(Config(VersionT1, req), 'T', Config(VersionT2, req), 'T', Config(VersionP, req));
    TakesTwo(Config(VersionP, req), 'P', Config(VersionSlash, req), '/', zero);
    Glue(Config(Uri, req), [' ', 'H'], Config(VersionT1, req), ['T', 'T'], Config(VersionP, req));
    Glue(Config(Uri, req), [' ', 'H'] + ['T', 'T'], Config(VersionP, req), ['P', '/'], zero);
    assert [' ', 'H'] + ['T', 'T'] + ['P', '/'] == " HTTP/";
  }

  lemma TakesNewline(st: State, mid: State, req: Request)
    requires (st == Minor && mid == Newline1) || (req.headers != [] && (st == Value || st == Lws) && mid == Newline2)
    ensures Takes(Config(st, req), "\r\n", Config(LineStart, req))
  {
    TakesTwo(Config(st, req), '\r', Config(mid, req), '\n', Config(LineStart, req));
  }

  // ---------- The whole request ----------

  function Started(r: Raw): (req: Request)
    requires ValidRaw(r)
  {
    Request(r.verb, r.uri, Num(r.major), Num(r.minor), [])
  }

  lemma TakesTarget(m: string, u: string)
    requires m != [] && Tokens(m) && UriText(u)
    ensures Takes(Config(MethodStart, NO_REQUEST), m + " " + u, Config(Uri, Request(m, u, 0, 0, [])))
  {
    var c, q := Config(MethodStart, NO_REQUEST), Request(m, "", 0, 0, []);
    WholeMethod(m);
    TakesSnoc(c, m, Config(Method, q), ' ', Config(Uri, q));
    TakesUri(q, u);
    Glue(c, m + " ", Config(Uri, q), u, Config(Uri, Request(m, u, 0, 0, [])));
  }

  lemma TakesStart(r: Raw)
    requires ValidRaw(r)
    ensures Takes(Config(MethodStart, NO_REQUEST), StartLine(r), Config(LineStart, Started(r)))
  {
    var c, q := Config(MethodStart, NO_REQUEST), Request(r.verb, r.uri, 0, 0, []);
    var target, rest := r.verb + " " + r.uri, "." + r.minor + "\r\n";
    var q3 := q.(major := Num(r.major));
    TakesTarget(r.verb, r.uri);
    TakesHttp(q);
    Glue(c, target, Config(Uri, q), " HTTP/", Config(MajorStart, q));
    WholeMajor(q, r.major);
    Glue(c, target + " HTTP/", Config(MajorStart, q), r.major, Config(Major, q3));
    TakesRest(r, q3);
    Glue(c, target + " HTTP/" + r.major, Config(Major, q3), rest, Config(LineStart, Started(r)));
    StartParts(r);
  }

  lemma StartParts(r: Raw)
    ensures StartLine(r) == r.verb + " " + r.uri + " HTTP/" + r.major + ("." + r.minor + "\r\n")
  {
  }

  lemma TakesRest(r: Raw, q: Request)
    requires ValidRaw(r) && q == Request(r.verb, r.uri, Num(r.major), 0, [])
    ensures Takes(Config(Major, q), "." + r.minor + "\r\n", Config(LineStart, Started(r)))
  {
    TakesOne(Config(Major, q), '.', Config(MinorStart, q));
    WholeMinor(q, r.minor);
    Glue(Config(Major, q), ".", Config(MinorStart, q), r.minor, Config(Minor, Started(r)));
    TakesNewline(Minor, Newline1, Started(r));
    Glue(Config(Major, q), "." + r.minor, Config(Minor, Started(r)), "\r\n", Config(LineStart, Started(r)));
  }

  // ---------- Header lines ----------

  /** The request whose last header has name n and value v. */
  function Last(req: Request, hs: seq<Header>, n: string, v: string): (r: Request)
    ensures r.headers != []
  {
    req.(headers := hs + [Header(n, v)])
  }

  lemma {:induction false} TakesName(req: Request, hs: seq<Header>, n: string, s: string)
    requires Tokens(s)
    ensures Takes(Config(Name, Last(req, hs, n, "")), s, Config(Name, Last(req, hs, n + s, "")))
  {
    var c := Config(Name, Last(req, hs, n, ""));
    if s == [] {
      assert n + s == n;
      TakesNothing(c);
    } else {
      var k := |s| - 1;
      TakesName(req, hs, n, s[..k]);
      assert s == s[..k] + [s[k]] && IsToken(s[k]) && n + s == (n + s[..k]) + [s[k]];
      LastMore(req, hs, n + s[..k], "", s[k]);
      TakesSnoc(c, s[..k], Config(Name, Last(req, hs, n + s[..k], "")), s[k], Config(Name, Last(req, hs, n + s, "")));
    }
  }

  lemma LastMore(req: Request, hs: seq<Header>, n: string, v: string, c: char)
    ensures NameMore(Last(req, hs, n, v), c) == Last(req, hs, n + [c], v)
    ensures ValueMore(Last(req, hs, n, v), c) == Last(req, hs, n, v + [c])
  {
  }

  lemma {:induction false} TakesValue(req: Request, hs: seq<Header>, n: string, v: string, s: string)
    requires Plain(s)
    ensures Takes(Config(Value, Last(req, hs, n, v)), s, Config(Value, Last(req, hs, n, v + s)))
  {
    var c := Config(Value, Last(req, hs, n, v));
    if s == [] {
      assert v + s == v;
      TakesNothing(c);
    } else {
      var k := |s| - 1;
      TakesValue(req, hs, n, v, s[..k]);
      assert s == s[..k] + [s[k]] && v + s == (v + s[..k]) + [s[k]];
      LastMore(req, hs, n, v + s[..k], s[k]);
      TakesSnoc(c, s[..k], Config(Value, Last(req, hs, n, v + s[..k])), s[k], Config(Value, Last(req, hs, n, v + s)));
    }
  }

  lemma {:induction false} TakesBlanks(req: Request, s: string)
    requires Blanks(s) && req.headers != []
    ensures Takes(Config(Lws, req), s, Config(Lws, req))
  {
    if s == [] {
      TakesNothing(Config(Lws, req));
    } else {
      var k := |s| - 1;
      TakesBlanks(req, s[..k]);
      assert s == s[..k] + [s[k]] && IsBlank(s[k]);
      TakesSnoc(Config(Lws, req), s[..k], Config(Lws, req), s[k], Config(Lws, req));
    }
  }
}
