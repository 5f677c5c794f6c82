/** The writers and the reader together. */
module JsonTheorems {
  import opened JsonValue
  import opened JsonText
  import opened JsonReader
  import opened JsonRoundTrip
  import opened JsonWriter
  import opened JsonLayout
  import opened JsonStyledWriter
  import opened JsonReaderClass

  /** Any layout of a value's tokens parses, without error, to that value with the reader's integer tags. */
  lemma ParseLayout(v: Value, text: string, was: Value, dd: Scanf, realText: real -> string)
    requires Writable(v) && Lex(text) == Tokens(v, realText)
    ensures var r := Parse(text, was, dd); r.ok && r.value == Norm(v) && r.errors == []
  {
    assert Lex(text) == Tokens(v, realText) + [];
    ReadBack(v, text, [], was, dd, realText);
  }

  lemma CompactLayout(v: Value, realText: real -> string)
    requires PrintsWords(realText)
    ensures Lex(Compact(v, realText) + "\n") == Tokens(v, realText)
  {
    LexTokens(v, realText);
    AppendBlank(Compact(v, realText), "\n");
  }

  /** What the compact writer prints, the reader reads back. */
  method WriteAndParse(v: Value, was: Value, dd: Scanf, realText: real -> string) returns (ok: bool, back: Value)
    requires Writable(v) && PrintsWords(realText)
    ensures ok && back == Norm(v)
  {
    var w := new FastWriter(realText);
    var text := w.Write(v);
    CompactLayout(v, realText);
    ParseLayout(v, text, was, dd, realText);
    var r := new Reader(dd);
    ok, back := r.ParseDoc(text, was);
  }

  /** So is what the pretty printer prints. */
  method WriteStyledAndParse(v: Value, was: Value, dd: Scanf, realText: real -> string) returns (ok: bool, back: Value)
    requires Writable(v) && PrintsWords(realText)
    ensures ok && back == Norm(v)
  {
    var w := new StyledWriter(realText);
    var text := w.Write(v);
    ParseLayout(v, text, was, dd, realText);
    var r := new Reader(dd);
    ok, back := r.ParseDoc(text, was);
  }

  /** The two writers print the same tokens: their documents differ only in white space between tokens. */
  method WriteBoth(v: Value, realText: real -> string) returns (compact: string, styled: string)
    requires WellFormed(v) && PrintsWords(realText)
    ensures Lex(styled) == Lex(compact) == Tokens(v, realText)
    ensures Complete(styled) && Complete(compact)
  {
    var f := new FastWriter(realText);
    compact := f.Write(v);
    CompactLayout(v, realText);
    LexTokens(v, realText);
    AppendBlank(Compact(v, realText), "\n");
    var s := new StyledWriter(realText);
    styled := s.Write(v);
  }

  // ---------- When the round trip is the identity ----------

  /** Integers tagged the way the reader tags them. */
  predicate Canonical(v: Value)
    decreases v, 0
  {
    match v
    case Int(i) => i <= MAX_INT
    case UInt(u) => u > MAX_INT
    case Arr(items) => AllCanonical(items)
    case Obj(ms) => MembersCanonical(ms)
    case _ => true
  }

  predicate AllCanonical(items: seq<Value>)
    decreases items, 1
  {
    items == [] || (Canonical(items[0]) && AllCanonical(items[1..]))
  }

  predicate MembersCanonical(ms: seq<Member>)
    decreases ms, 1
  {
    ms == [] || (Canonical(ms[0].value) && MembersCanonical(ms[1..]))
  }

  /** Writing and parsing is the identity exactly on values with canonical integer tags. */
  lemma {:induction false} IdentityIff(v: Value)
    ensures Norm(v) == v <==> Canonical(v)
    decreases v, 0
  {
    match v
    case Arr(items) => ItemsIdentityIff(items);
    case Obj(ms) => MembersIdentityIff(ms);
    case _ =>
  }

  lemma {:induction false} ItemsIdentityIff(items: seq<Value>)
    ensures NormAll(items) == items <==> AllCanonical(items)
    decreases items, 1
  {
    if items != [] {
      IdentityIff(items[0]);
      ItemsIdentityIff(items[1..]);
      var n := NormAll(items);
      assert n[0] == Norm(items[0]) && n[1..] == NormAll(items[1..]);
      assert items == [items[0]] + items[1..];
    }
  }

  lemma {:induction false} MembersIdentityIff(ms: seq<Member>)
    ensures NormMembers(ms) == ms <==> MembersCanonical(ms)
    decreases ms, 1
  {
    if ms != [] {
      IdentityIff(ms[0].value);
      MembersIdentityIff(ms[1..]);
      var n := NormMembers(ms);
      assert n[0].value == Norm(ms[0].value) && n[1..] == NormMembers(ms[1..]);
      assert ms == [ms[0]] + ms[1..];
    }
  }

  /** An integer beyond 32 bits comes back with the other tag. */
  lemma TagChanges()
    ensures Norm(Int(5000000000)) == UInt(5000000000) != Int(5000000000)
  {
  }
}
