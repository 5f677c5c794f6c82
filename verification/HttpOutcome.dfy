/** When the outcome is settled, and how: what can still become a request, and what cannot. */
module HttpOutcome {
  import opened HttpRequest
  import opened HttpAccept

  const START: Config := Config(MethodStart, NO_REQUEST)

  ghost predicate Printed(text: string) {
    exists req :: IsPrint(text, req)
  }

  /** Some printed request goes on after the text. */
  ghost predicate Begins(text: string) {
    exists more: string :: more != [] && Printed(text + more)
  }

  // ---------- Every state can still come to an end ----------

  /** A character that leads on towards the end of a request. */
  function Onward(st: State): (ch: char) {
    match st
    case MethodStart => 'G'
    case Method | Uri | SpaceBeforeValue => ' '
    case VersionH => 'H'
    case VersionT1 | VersionT2 => 'T'
    case VersionP => 'P'
    case VersionSlash => '/'
    case MajorStart | MinorStart => '1'
    case Major => '.'
    case Minor | LineStart | Lws | Value => '\r'
    case Newline1 | Newline2 | Newline3 => '\n'
    case Name => ':'
  }

  /** How many such characters it takes. */
  function Far(st: State): (n: nat) {
    match st
    case MethodStart => 15
    case Method => 14
    case Uri => 13
    case VersionH => 12
    case VersionT1 => 11
    case VersionT2 => 10
    case VersionP => 9
    case VersionSlash => 8
    case MajorStart => 7
    case Major | Name => 6
    case MinorStart | SpaceBeforeValue => 5
    case Minor | Lws | Value => 4
    case Newline1 | Newline2 => 3
    case LineStart => 2
    case Newline3 => 1
  }

  lemma LeadsOn(c: Config)
    ensures var m := Next(c, Onward(c.state));
            if c.state == Newline3 then m.result == Good
            else m.result == Indeterminate && Far(m.next.state) < Far(c.state)
  {
  }

  lemma {:induction false} Completes(c: Config) returns (t: string)
    ensures t != [] && Feed(c, t).result == Good && Feed(c, t).consumed == |t|
    decreases Far(c.state)
  {
    LeadsOn(c);
    var ch := Onward(c.state);
    var m := Next(c, ch);
    if m.result == Good {
      t := [ch];
    } else {
      var more := Completes(m.next);
      t := [ch] + more;
      assert t[1..] == more;
    }
  }

  // ---------- The outcomes ----------

  lemma GoodPrinted(s: string)
    requires Feed(START, s).result == Good && Feed(START, s).consumed == |s|
    ensures Printed(s)
  {
    GoodIsPrinted(s);
    PrintedBy(s, |s|, Feed(START, s).last.req);
  }

  lemma PrintedBy(s: string, n: nat, req: Request)
    requires n == |s| && IsPrint(s[..n], req)
    ensures Printed(s)
  {
    assert s[..n] == s;
  }

  lemma PrintedGood(input: string, n: nat)
    requires n <= |input| && Printed(input[..n])
    ensures Feed(START, input).result == Good && Feed(START, input).consumed == n
  {
    var req :| IsPrint(input[..n], req);
    PrintedIsGood(input, n, req);
  }

  lemma UndecidedBegins(s: string)
    requires Feed(START, s).result == Indeterminate
    ensures Begins(s)
  {
    var more := Completes(Feed(START, s).last);
    FeedConcat(START, s, more);
    GoodPrinted(s + more);
  }

  lemma BeginsUndecided(s: string)
    requires Begins(s)
    ensures Feed(START, s).result == Indeterminate
  {
    var more: string :| more != [] && Printed(s + more);
    assert (s + more)[..|s + more|] == s + more;
    PrintedGood(s + more, |s + more|);
    FeedConcat(START, s, more);
  }

  /** Nothing is settled exactly as long as some request begins with what has been read, and goes on. */
  lemma UndecidedIff(s: string)
    ensures Feed(START, s).result == Indeterminate <==> Begins(s)
  {
    if Feed(START, s).result == Indeterminate {
      UndecidedBegins(s);
    }
    if Begins(s) {
      BeginsUndecided(s);
    }
  }

  /** The outcome is that of the characters consumed, and was not settled before. */
  lemma {:induction false} SettledAt(c: Config, input: string)
    requires Feed(c, input).result != Indeterminate
    ensures var t := Feed(c, input);
            t.consumed > 0 && Feed(c, input[..t.consumed]) == t &&
            Feed(c, input[..t.consumed - 1]).result == Indeterminate
    decreases |input|
  {
    var m := Next(c, input[0]);
    if m.result == Indeterminate {
      SettledAt(m.next, input[1..]);
      var n := Feed(m.next, input[1..]).consumed;
      assert input[..n + 1][1..] == input[1..][..n] && input[..n][1..] == input[1..][..n - 1];
    }
  }

  lemma SettledLast(s: string)
    requires s != [] && Feed(START, s).result != Indeterminate && Feed(START, s[..|s| - 1]).result == Indeterminate
    ensures Feed(START, s).consumed == |s|
  {
    var t, before := Feed(START, s), s[..|s| - 1];
    SettledAt(START, s);
    if t.consumed < |s| {
      assert before[..t.consumed] == s[..t.consumed];
      SettledBy(before, t.consumed, t);
    }
  }

  lemma SettledThere(input: string, n: nat)
    requires 0 < n <= |input|
    requires Feed(START, input[..n - 1]).result == Indeterminate && Feed(START, input[..n]).result != Indeterminate
    ensures Feed(START, input) == Feed(START, input[..n]) && Feed(START, input).consumed == n
  {
    var s := input[..n];
    assert s[..n - 1] == input[..n - 1];
    SettledLast(s);
    SettledBy(input, n, Feed(START, s));
  }

  /**
   * The outcome is bad after n characters exactly when a request begins with all but the last of them,
   * and with all of them none begins or ends.
   */
  lemma BadIff(input: string, n: nat)
    requires n <= |input|
    ensures var t := Feed(START, input);
            (t.result == Bad && t.consumed == n) <==>
            n > 0 && Begins(input[..n - 1]) && !Begins(input[..n]) && !Printed(input[..n])
  {
    var t := Feed(START, input);
    if t.result == Bad && t.consumed == n {
      BadOnly(input, n);
    }
    if n > 0 && Begins(input[..n - 1]) && !Begins(input[..n]) && !Printed(input[..n]) {
      BadThere(input, n);
    }
  }

  lemma BadOnly(input: string, n: nat)
    requires n <= |input| && Feed(START, input).result == Bad && Feed(START, input).consumed == n
    ensures n > 0 && Begins(input[..n - 1]) && !Begins(input[..n]) && !Printed(input[..n])
  {
    SettledAt(START, input);
    UndecidedIff(input[..n - 1]);
    UndecidedIff(input[..n]);
    if Printed(input[..n]) {
      PrintedGood(input, n);
    }
  }

  lemma BadThere(input: string, n: nat)
    requires 0 < n <= |input| && Begins(input[..n - 1]) && !Begins(input[..n]) && !Printed(input[..n])
    ensures Feed(START, input).result == Bad && Feed(START, input).consumed == n
  {
    UndecidedIff(input[..n - 1]);
    UndecidedIff(input[..n]);
    SettledThere(input, n);
    if Feed(START, input).result == Good {
      GoodPrinted(input[..n]);
    }
  }
}
