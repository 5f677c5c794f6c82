/** Whatever is printed as a request is parsed to that request. */
module HttpPrint {
  import opened HttpRequest
  import opened HttpGrammar

  lemma NameStart(req: Request, c: char)
    requires IsToken(c)
    ensures Next(Config(LineStart, req), c) == Move(Indeterminate, Config(Name, Last(req, req.headers, [c], "")))
  {
  }

  lemma TakesField(req: Request, n: string, v: string)
    requires n != [] && Tokens(n) && Plain(v)
    ensures Takes(Config(LineStart, req), n + ": " + v + "\r\n", Config(LineStart, Last(req, req.headers, n, v)))
  {
    var c, hs := Config(LineStart, req), req.headers;
    var named, done := Last(req, hs, n, ""), Last(req, hs, n, v);
    assert IsToken(n[0]);
    NameStart(req, n[0]);
    TakesOne(c, n[0], Config(Name, Last(req, hs, [n[0]], "")));
    TakesName(req, hs, [n[0]], n[1..]);
    Split(n);
    Glue(c, [n[0]], Config(Name, Last(req, hs, [n[0]], "")), n[1..], Config(Name, named));
    TakesTwo(Config(Name, named), ':', Config(SpaceBeforeValue, named), ' ', Config(Value, named));
    Glue(c, n, Config(Name, named), ": ", Config(Value, named));
    TakesValue(req, hs, n, "", v);
    assert "" + v == v;
    Glue(c, n + ": ", Config(Value, named), v, Config(Value, done));
    TakesNewline(Value, Newline2, done);
    Glue(c, n + ": " + v, Config(Value, done), "\r\n", Config(LineStart, done));
  }

  /** Blanks, and then text to add to the last header's value. */
  lemma TakesFold(req: Request, hs: seq<Header>, n: string, v: string, b: string, t: string)
    requires ValidLine(Fold(b, t))
    ensures Takes(Config(LineStart, Last(req, hs, n, v)), b + t + "\r\n", Config(LineStart, Last(req, hs, n, v + t)))
  {
    var before, after := Last(req, hs, n, v), Last(req, hs, n, v + t);
    var c := Config(LineStart, before);
    assert IsBlank(b[0]);
    TakesOne(c, b[0], Config(Lws, before));
    TakesBlanks(before, b[1..]);
    Split(b);
    Glue(c, [b[0]], Config(Lws, before), b[1..], Config(Lws, before));
    if t == [] {
      assert v + t == v && b + t == b;
      TakesNewline(Lws, Newline2, before);
      Glue(c, b, Config(Lws, before), "\r\n", Config(LineStart, before));
    } else {
      TakesText(req, hs, n, v, t);
      Glue(c, b, Config(Lws, before), t, Config(Value, after));
      TakesNewline(Value, Newline2, after);
      Glue(c, b + t, Config(Value, after), "\r\n", Config(LineStart, after));
    }
  }

  lemma TakesText(req: Request, hs: seq<Header>, n: string, v: string, t: string)
    requires t != [] && Plain(t) && !IsBlank(t[0])
    ensures Takes(Config(Lws, Last(req, hs, n, v)), t, Config(Value, Last(req, hs, n, v + t)))
  {
    LastMore(req, hs, n, v, t[0]);
    TakesOne(Config(Lws, Last(req, hs, n, v)), t[0], Config(Value, Last(req, hs, n, v + [t[0]])));
    TakesValue(req, hs, n, v + [t[0]], t[1..]);
    Split(t);
    assert v + t == (v + [t[0]]) + t[1..];
    Glue(Config(Lws, Last(req, hs, n, v)), [t[0]], Config(Value, Last(req, hs, n, v + [t[0]])), t[1..],
         Config(Value, Last(req, hs, n, v + t)));
  }

  function With(req: Request, hs: seq<Header>): (r: Request) {
    req.(headers := hs)
  }

  lemma TakesLine(req: Request, hs: seq<Header>, l: Line)
    requires ValidLine(l) && (l.Fold? ==> hs != [])
    ensures Takes(Config(LineStart, With(req, hs)), LineText(l), Config(LineStart, With(req, AddLine(hs, l))))
  {
    match l
    case Field(n, v) =>
      TakesField(With(req, hs), n, v);
    case Fold(b, t) =>
      var k := |hs| - 1;
      var h := hs[k];
      assert hs == hs[..k] + [Header(h.name, h.value)];
      assert AddLine(hs, l) == hs[..k] + [Header(h.name, h.value + t)];
      TakesFold(req, hs[..k], h.name, h.value, b, t);
  }

  lemma {:induction false} TakesLines(req: Request, ls: seq<Line>)
    requires ValidLines(ls) && req.headers == []
    ensures Takes(Config(LineStart, req), LinesText(ls), Config(LineStart, With(req, Headers(ls))))
  {
    if ls == [] {
      assert With(req, []) == req;
      TakesNothing(Config(LineStart, req));
    } else {
      var n := |ls| - 1;
      var before, l := ls[..n], ls[n];
      TakesLines(req, before);
      HeadersThere(before);
      TakesLine(req, Headers(before), l);
      Glue(Config(LineStart, req), LinesText(before), Config(LineStart, With(req, Headers(before))),
           LineText(l), Config(LineStart, With(req, Headers(ls))));
    }
  }

  lemma EndsGood(c: Config, s: string, req: Request)
    requires Takes(c, s, Config(LineStart, req))
    ensures Feed(c, s + "\r\n") == Trace(Good, |s| + 2, Config(Newline3, req))
  {
    TakesSnoc(c, s, Config(LineStart, req), '\r', Config(Newline3, req));
    FeedConcat(c, s + "\r", "\n");
    assert s + "\r" + "\n" == s + "\r\n";
    assert "\n"[1..] == "";
  }

  /** A printed request is good, to its last character, and gives exactly its fields. */
  lemma PrintParses(r: Raw)
    requires ValidRaw(r)
    ensures Feed(Config(MethodStart, NO_REQUEST), Print(r)) == Trace(Good, |Print(r)|, Config(Newline3, Meaning(r)))
  {
    var c := Config(MethodStart, NO_REQUEST);
    TakesStart(r);
    TakesLines(Started(r), r.lines);
    Glue(c, StartLine(r), Config(LineStart, Started(r)), LinesText(r.lines), Config(LineStart, Meaning(r)));
    EndsGood(c, StartLine(r) + LinesText(r.lines), Meaning(r));
  }
}
