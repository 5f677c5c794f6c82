/** The parser object, fed from buffers. */
module HttpParser {
  import opened HttpRequest

  /** The request that a parser fills in. */
  class Incoming {
    var verb: string
    var uri: string
    var major: nat
    var minor: nat
    var headers: seq<Header>

    constructor ()
      ensures View() == NO_REQUEST
    {
      verb, uri, major, minor, headers := "", "", 0, 0, [];
    }

    ghost function View(): (r: Request)
      reads this
    {
      Request(verb, uri, major, minor, headers)
    }
  }

  class RequestParser {
    var state: State

    constructor ()
      ensures state == MethodStart
    {
      state := MethodStart;
    }

    method Reset()
      modifies this
      ensures state == MethodStart
    {
      state := MethodStart;
    }

    /** In a header there is a last header to write to. */
    ghost predicate Valid(req: Incoming)
      reads this, req
    {
      InHeader(state) ==> req.headers != []
    }

    ghost function View(req: Incoming): (c: Config)
      requires Valid(req)
      reads this, req
    {
      Config(state, req.View())
    }

    /** States that want one character. */
    method Expect(input: char, wanted: char, next: State) returns (result: Outcome)
      modifies this
      ensures state == if input == wanted then next else old(state)
      ensures result == if input == wanted then Indeterminate else Bad
    {
      if input == wanted {
        state := next;
        return Indeterminate;
      }
      return Bad;
    }

    method ConsumeTarget(req: Incoming, input: char) returns (result: Outcome)
      requires state == MethodStart || state == Method || state == Uri
      modifies this, req
      ensures Valid(req) && Move(result, View(req)) == NextInLine(old(View(req)), input)
    {
      if state == MethodStart {
        if !IsChar(input) || IsCtl(input) || IsTspecial(input) {
          return Bad;
        }
        state := Method;
        req.verb := req.verb + [input];
        return Indeterminate;
      } else if state == Method {
        if input == ' ' {
          state := Uri;
          return Indeterminate;
        } else if !IsChar(input) || IsCtl(input) || IsTspecial(input) {
          return Bad;
        }
        req.verb := req.verb + [input];
        return Indeterminate;
      } else {
        if input == ' ' {
          state := VersionH;
          return Indeterminate;
        } else if IsCtl(input) {
          return Bad;
        }
        req.uri := req.uri + [input];
        return Indeterminate;
      }
    }

    method ConsumeHttp(req: Incoming, input: char) returns (result: Outcome)
      requires state == VersionH || state == VersionT1 || state == VersionT2 || state == VersionP ||
               state == VersionSlash
      modifies this, req
      ensures Valid(req) && Move(result, View(req)) == NextInLine(old(View(req)), input)
    {
      if state == VersionH {
        result := Expect(input, 'H', VersionT1);
      } else if state == VersionT1 {
        result := Expect(input, 'T', VersionT2);
      } else if state == VersionT2 {
        result := Expect(input, 'T', VersionP);
      } else if state == VersionP {
        result := Expect(input, 'P', VersionSlash);
      } else if input == '/' {
        req.major := 0;
        req.minor := 0;
        state := MajorStart;
        return Indeterminate;
      } else {
        return Bad;
      }
    }

    method ConsumeVersion(req: Incoming, input: char) returns (result: Outcome)
      requires state == MajorStart || state == Major || state == MinorStart || state == Minor
      modifies this, req
      ensures Valid(req) && Move(result, View(req)) == NextInLine(old(View(req)), input)
    {
      if state == Major && input == '.' {
        state := MinorStart;
        return Indeterminate;
      } else if state == Minor && input == '\r' {
        state := Newline1;
        return Indeterminate;
      } else if !IsDigit(input) {
        return Bad;
      } else if state == MajorStart || state == Major {
        req.major := req.major * 10 + DigitOf(input);
        state := Major;
        return Indeterminate;
      } else {
        req.minor := req.minor * 10 + DigitOf(input);
        state := Minor;
        return Indeterminate;
      }
    }

    method ConsumeLineStart(req: Incoming, input: char) returns (result: Outcome)
      requires state == LineStart
      modifies this, req
      ensures Valid(req) && Move(result, View(req)) == NextInHeaders(old(View(req)), input)
    {
      if input == '\r' {
        state := Newline3;
        return Indeterminate;
      } else if req.headers != [] && (input == ' ' || input == '\t') {
        state := Lws;
        return Indeterminate;
      } else if !IsChar(input) || IsCtl(input) || IsTspecial(input) {
        return Bad;
      }
      req.headers := req.headers + [Header("", "")];
      PushName(req, input);
      state := Name;
      assert "" + [input] == [input];
      assert req.headers == old(req.headers) + [Header([input], "")];
      return Indeterminate;
    }

    /** req.headers.back().name.push_back(input) */
    method PushName(req: Incoming, input: char)
      requires req.headers != []
      modifies req
      ensures req.View() == NameMore(old(req.View()), input)
    {
      var n := |req.headers| - 1;
      req.headers := req.headers[n := req.headers[n].(name := req.headers[n].name + [input])];
    }

    /** req.headers.back().value.push_back(input) */
    method PushValue(req: Incoming, input: char)
      requires req.headers != []
      modifies req
      ensures req.View() == ValueMore(old(req.View()), input)
    {
      var n := |req.headers| - 1;
      req.headers := req.headers[n := req.headers[n].(value := req.headers[n].value + [input])];
    }

    method ConsumeHeader(req: Incoming, input: char) returns (result: Outcome)
      requires (state == Lws || state == Name || state == Value) && Valid(req)
      modifies this, req
      ensures Valid(req) && Move(result, View(req)) == NextInHeaders(old(View(req)), input)
    {
      if state == Name {
        if input == ':' {
          state := SpaceBeforeValue;
          return Indeterminate;
        } else if !IsChar(input) || IsCtl(input) || IsTspecial(input) {
          return Bad;
        }
        PushName(req, input);
        return Indeterminate;
      }
      if input == '\r' {
        state := Newline2;
        return Indeterminate;
      } else if state == Lws && (input == ' ' || input == '\t') {
        return Indeterminate;
      } else if IsCtl(input) {
        return Bad;
      }
      state := Value;
      PushValue(req, input);
      return Indeterminate;
    }

    method ConsumeNewline(req: Incoming, input: char) returns (result: Outcome)
      requires (state == Newline1 || state == SpaceBeforeValue || state == Newline2 || state == Newline3) && Valid(req)
      modifies this, req
      ensures Valid(req) && Move(result, View(req)) == NextInHeaders(old(View(req)), input)
    {
      if state == Newline1 {
        result := Expect(input, '\n', LineStart);
      } else if state == SpaceBeforeValue {
        result := Expect(input, ' ', Value);
      } else if state == Newline2 {
        result := Expect(input, '\n', LineStart);
      } else {
        return if input == '\n' then Good else Bad;
      }
    }

    method Consume(req: Incoming, input: char) returns (result: Outcome)
      requires Valid(req)
      modifies this, req
      ensures Valid(req) && Move(result, View(req)) == Next(old(View(req)), input)
    {
      match state
      case MethodStart | Method | Uri => result := ConsumeTarget(req, input);
      case VersionH | VersionT1 | VersionT2 | VersionP | VersionSlash => result := ConsumeHttp(req, input);
      case MajorStart | Major | MinorStart | Minor => result := ConsumeVersion(req, input);
      case LineStart => result := ConsumeLineStart(req, input);
      case Lws | Name | Value => result := ConsumeHeader(req, input);
      case Newline1 | SpaceBeforeValue | Newline2 | Newline3 => result := ConsumeNewline(req, input);
    }

    /** As much of the buffer as it takes to settle the outcome; at says how much that is. */
    method Parse(req: Incoming, buffer: string) returns (result: Outcome, at: nat)
      requires Valid(req)
      modifies this, req
      ensures Valid(req) && Trace(result, at, View(req)) == Feed(old(View(req)), buffer)
    {
      at := 0;
      assert buffer[0..] == buffer;
      while at != |buffer|
        invariant at <= |buffer| && Valid(req)
        invariant Ahead(Feed(View(req), buffer[at..]), at) == Feed(old(View(req)), buffer)
        decreases |buffer| - at
      {
        assert buffer[at..][1..] == buffer[at + 1..];
        result := Consume(req, buffer[at]);
        at := at + 1;
        if result == Good || result == Bad {
          return;
        }
      }
      return Indeterminate, at;
    }
  }

  /** The same trace, seen from n characters earlier. */
  function Ahead(t: Trace, n: nat): (r: Trace) {
    Trace(t.result, n + t.consumed, t.last)
  }

  function Joined(buffers: seq<string>): (s: string) {
    if buffers == [] then [] else Joined(buffers[..|buffers| - 1]) + buffers[|buffers| - 1]
  }

  /** Buffers one after the other until the outcome is settled: the same as all of them at once. */
  method ParseBuffers(buffers: seq<string>)
    returns (result: Outcome, consumed: nat, req: Incoming, parser: RequestParser)
    ensures fresh(req) && fresh(parser) && parser.Valid(req)
    ensures Trace(result, consumed, parser.View(req)) == Feed(Config(MethodStart, NO_REQUEST), Joined(buffers))
  {
    parser := new RequestParser();
    req := new Incoming();
    ghost var start := parser.View(req);
    result, consumed := Indeterminate, 0;
    for k := 0 to |buffers|
      invariant parser.Valid(req) && result == Indeterminate
      invariant Trace(result, consumed, parser.View(req)) == Feed(start, Joined(buffers[..k]))
    {
      assert buffers[..k + 1][..k] == buffers[..k];
      FeedConcat(start, Joined(buffers[..k]), buffers[k]);
      var at;
      result, at := parser.Parse(req, buffers[k]);
      consumed := consumed + at;
      if result != Indeterminate {
        RestUnread(start, buffers, k + 1);
        return;
      }
    }
    assert buffers[..|buffers|] == buffers;
  }

  /** Once the outcome is settled the later buffers make no difference. */
  lemma {:induction false} RestUnread(start: Config, buffers: seq<string>, k: nat)
    requires k <= |buffers| && Feed(start, Joined(buffers[..k])).result != Indeterminate
    ensures Feed(start, Joined(buffers)) == Feed(start, Joined(buffers[..k]))
    decreases |buffers| - k
  {
    if k == |buffers| {
      assert buffers[..k] == buffers;
    } else {
      assert buffers[..k + 1][..k] == buffers[..k];
      FeedConcat(start, Joined(buffers[..k]), buffers[k]);
      RestUnread(start, buffers, k + 1);
    }
  }
}
