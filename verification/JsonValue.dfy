/**
  JSON values as the library holds them. A char stands for one byte, a string
  for the bytes of a C string up to its terminating NUL.
*/
module JsonValue {

  datatype Value =
    | Null
    | Bool(b: bool)
    | Int(i: int)
    | UInt(u: nat)
    | Real(r: real)
    | Str(s: string)
    | Arr(items: seq<Value>)
    | Obj(members: seq<Member>)

  datatype Member = Member(name: string, value: Value)

  const MAX_INT: int := 0x7fff_ffff
  const MAX_LARGEST_INT: int := 0x7fff_ffff_ffff_ffff
  const MIN_LARGEST_INT: int := -0x8000_0000_0000_0000
  const MAX_LARGEST_UINT: int := 0xffff_ffff_ffff_ffff

  const NUL: char := '\0'

  /** What a C string function sees of a byte string. */
  function CStr(s: string): (r: string)
    ensures NUL !in r
    ensures NUL !in s ==> r == s
  {
    if s == "" || s[0] == NUL then "" else [s[0]] + CStr(s[1..])
  }

  /** strcmp(a, b) < 0 */
  predicate Less(a: string, b: string) {
    if b == "" then false
    else if a == "" then true
    else a[0] < b[0] || (a[0] == b[0] && Less(a[1..], b[1..]))
  }

  lemma {:induction false} LessIrreflexive(a: string)
    ensures !Less(a, a)
  {
    if a != "" {
      LessIrreflexive(a[1..]);
    }
  }

  lemma {:induction false} LessTransitive(a: string, b: string, c: string)
    requires Less(a, b) && Less(b, c)
    ensures Less(a, c)
  {
    if a != "" && a[0] == b[0] == c[0] {
      LessTransitive(a[1..], b[1..], c[1..]);
    }
  }

  lemma {:induction false} LessTotal(a: string, b: string)
    ensures a == b || Less(a, b) || Less(b, a)
  {
    if a != "" && b != "" && a[0] == b[0] {
      LessTotal(a[1..], b[1..]);
      assert a == [a[0]] + a[1..] && b == [b[0]] + b[1..];
    }
  }

  /** Members in the order of the map that holds them: strictly increasing names. */
  predicate Sorted(ms: seq<Member>) {
    forall i: nat, j: nat :: i < j < |ms| ==> Less(ms[i].name, ms[j].name)
  }

  /** The values the library can hold: integers of 64 bits, NUL-free strings, sorted members. */
  predicate WellFormed(v: Value)
    decreases v, 0
  {
    match v
    case Int(i) => MIN_LARGEST_INT <= i <= MAX_LARGEST_INT
    case UInt(u) => u <= MAX_LARGEST_UINT
    case Str(s) => NUL !in s
    case Arr(items) => AllWellFormed(items)
    case Obj(ms) => Sorted(ms) && MembersWellFormed(ms)
    case _ => true
  }

  predicate AllWellFormed(items: seq<Value>)
    decreases items, 1
  {
    items == [] || (WellFormed(items[0]) && AllWellFormed(items[1..]))
  }

  predicate MembersWellFormed(ms: seq<Member>)
    decreases ms, 1
  {
    ms == [] || (NUL !in ms[0].name && WellFormed(ms[0].value) && MembersWellFormed(ms[1..]))
  }

  /** The reference operator[](key) returns: the member's value, null if there is none. */
  function Lookup(ms: seq<Member>, name: string): (v: Value) {
    if ms == [] then Null
    else if ms[0].name == name then ms[0].value
    else Lookup(ms[1..], name)
  }

  /** The members after assigning through that reference. */
  function Put(ms: seq<Member>, name: string, v: Value): (r: seq<Member>) {
    if ms == [] || Less(name, ms[0].name) then [Member(name, v)] + ms
    else if ms[0].name == name then [Member(name, v)] + ms[1..]
    else [ms[0]] + Put(ms[1..], name, v)
  }

  /** Assigning to a name after all others appends it. */
  lemma {:induction false} PutLast(ms: seq<Member>, name: string, v: Value)
    requires forall i: nat :: i < |ms| ==> Less(ms[i].name, name)
    ensures Put(ms, name, v) == ms + [Member(name, v)]
  {
    if ms != [] {
      PutLast(ms[1..], name, v);
      assert Less(ms[0].name, name);
      LessAsymmetric(ms[0].name, name);
      assert ms == [ms[0]] + ms[1..];
    }
  }

  lemma LessAsymmetric(a: string, b: string)
    requires Less(a, b)
    ensures !Less(b, a) && a != b
  {
    if Less(b, a) {
      LessTransitive(a, b, a);
    }
    LessIrreflexive(a);
  }

  /** Assignment keeps the members sorted, sets the named one and leaves every other one alone. */
  lemma {:induction false} PutSorted(ms: seq<Member>, name: string, v: Value)
    requires Sorted(ms)
    ensures Sorted(Put(ms, name, v)) && Lookup(Put(ms, name, v), name) == v
    ensures forall m :: m in Put(ms, name, v) ==> m in ms || m == Member(name, v)
    ensures forall n :: n != name ==> Lookup(Put(ms, name, v), n) == Lookup(ms, n)
  {
    if ms != [] && !Less(name, ms[0].name) {
      if ms[0].name == name {
        assert [ms[0]] + ms[1..] == ms;
      } else {
        PutSorted(ms[1..], name, v);
        LessTotal(name, ms[0].name);
        var rest := Put(ms[1..], name, v);
        forall j: nat | j < |rest| ensures Less(ms[0].name, rest[j].name) {
          assert rest[j] in rest;
          if rest[j] in ms[1..] {
            var k: nat :| k < |ms[1..]| && ms[1..][k] == rest[j];
            assert ms[k + 1] == rest[j];
          }
        }
      }
    } else if ms != [] {
      forall j: nat | j < |ms| ensures Less(name, ms[j].name) {
        if j > 0 {
          LessTransitive(name, ms[0].name, ms[j].name);
        }
      }
    }
  }
}
