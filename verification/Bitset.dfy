/** The growable bitset: a word array with spare capacity, used in place. */
module Bitset {
  import opened Words
  import opened WordSets
  import opened WordShifts

  class Bitset {
    var words: array<Word>
    var arraysize: nat
    var capacity: nat

    ghost predicate Valid()
      reads this
    {
      arraysize <= capacity == words.Length
    }

    /** The words in use; what lies beyond them is stale. */
    ghost function Contents(): (ws: seq<Word>)
      requires Valid()
      reads this, words
    {
      words[..arraysize]
    }

    /** The set the bitset stands for. */
    ghost function Elements(): (s: set<nat>)
      requires Valid()
      reads this, words
    {
      Members(Contents())
    }

    constructor ()
      ensures Valid() && Contents() == [] && fresh(words)
    {
      words := new Word[0];
      arraysize, capacity := 0, 0;
    }

    constructor WithCapacity(size: nat)
      ensures Valid() && fresh(words) && arraysize == (size + 63) / 64 && Contents() == Zeros(arraysize)
    {
      var n := (size + 63) / 64;
      words := new Word[n](_ => 0);
      arraysize, capacity := n, n;
    }

    constructor Copy(other: Bitset)
      requires other.Valid()
      ensures Valid() && Contents() == other.Contents() && fresh(words)
    {
      var n := other.arraysize;
      words := new Word[n](i requires 0 <= i < other.arraysize <= other.words.Length reads other, other.words =>
                             other.words[i]);
      arraysize, capacity := n, n;
    }

    /** realloc: the words that fit are kept, the others are whatever the memory held. */
    method Reallocate(n: nat)
      requires words.Length == capacity
      modifies this`words, this`capacity
      ensures words.Length == capacity == n && fresh(words)
      ensures forall i: nat :: i < n && i < old(words).Length ==> words[i] == old(words[i])
    {
      var bigger := new Word[n];
      var smallest := Min(n, words.Length);
      forall i | 0 <= i < smallest {
        bigger[i] := words[i];
      }
      words, capacity := bigger, n;
    }

    method Resize(newarraysize: nat, padwithzeroes: bool)
      requires Valid()
      modifies this, words
      ensures Valid() && arraysize == newarraysize && (words == old(words) || fresh(words))
      ensures forall i: nat :: i < newarraysize && i < old(arraysize) ==> words[i] == old(words[i])
      ensures padwithzeroes ==> forall i: nat :: old(arraysize) <= i < newarraysize ==> words[i] == 0
    {
      var smallest := Min(newarraysize, arraysize);
      if capacity < newarraysize {
        Reallocate(newarraysize * 2);
      }
      if padwithzeroes && newarraysize > smallest {
        forall i | smallest <= i < newarraysize {
          words[i] := 0;
        }
      }
      arraysize := newarraysize;
    }

    method Grow(newarraysize: nat)
      requires Valid() && arraysize <= newarraysize
      modifies this, words
      ensures Valid() && (words == old(words) || fresh(words))
      ensures Contents() == old(Contents()) + Zeros(newarraysize - old(arraysize))
    {
      if capacity < newarraysize {
        Reallocate(newarraysize * 2);
      }
      forall i | arraysize <= i < newarraysize {
        words[i] := 0;
      }
      arraysize := newarraysize;
    }

    method Clear()
      requires Valid()
      modifies words
      ensures Valid() && arraysize == old(arraysize) && Elements() == {}
    {
      forall i | 0 <= i < arraysize {
        words[i] := 0;
      }
      assert Contents() == Zeros(arraysize);
      ZerosEmpty(arraysize);
    }

    /** Set bit i, growing the array with zero words if it is too short. */
    method Set(i: nat)
      requires Valid()
      modifies this, words
      ensures Valid() && (words == old(words) || fresh(words))
      ensures Elements() == old(Elements()) + {i}
      ensures arraysize == Max(old(arraysize), i / 64 + 1)
    {
      ghost var ws := Contents();
      var shiftedi := i / 64;
      if shiftedi >= arraysize {
        Grow(shiftedi + 1);
        PadMembers(ws, shiftedi + 1 - |ws|);
      }
      InsertMembers(Contents(), i);
      words[shiftedi] := OrW(words[shiftedi], Shl(1, i % 64));
      assert Contents() == Inserted(ws + Zeros(arraysize - |ws|), i);
    }

    method Unset(i: nat)
      requires Valid()
      modifies words
      ensures Valid() && arraysize == old(arraysize) && Elements() == old(Elements()) - {i}
    {
      ghost var ws := Contents();
      var shiftedi := i / 64;
      if shiftedi >= arraysize {
        InMembers(ws, i);
        return;
      }
      RemoveMembers(ws, i);
      words[shiftedi] := AndW(words[shiftedi], Not(Shl(1, i % 64)));
      assert Contents() == Removed(ws, i);
    }

    method Get(i: nat) returns (b: bool)
      requires Valid()
      ensures b == (i in Elements())
    {
      InMembers(Contents(), i);
      var shiftedi := i / 64;
      if shiftedi >= arraysize {
        return false;
      }
      SingleBit(words[shiftedi], i % 64);
      return AndW(words[shiftedi], Shl(1, i % 64)) != 0;
    }

    method ShiftWordsLeft(extraWords: nat)
      requires Valid()
      modifies this, words
      ensures Valid() && (words == old(words) || fresh(words))
      ensures Contents() == LeftWords(old(Contents()), extraWords, 0)
    {
      ghost var ws := Contents();
      var size := arraysize;
      Resize(size + extraWords, false);
      MoveUp(words, size, extraWords, ws);
      ZeroLow(words, extraWords);
      LeftAssembled(Contents(), ws, extraWords, 0);
    }

    method ShiftBitsLeft(extraWords: nat, inwordShift: nat)
      requires Valid() && 0 < inwordShift < 64 && arraysize > 0
      modifies this, words
      ensures Valid() && (words == old(words) || fresh(words))
      ensures Contents() == LeftWords(old(Contents()), extraWords, inwordShift)
    {
      ghost var ws := Contents();
      var size := arraysize;
      Resize(size + extraWords + 1, true);
      ShiftUp(words, size, extraWords, inwordShift, ws);
      ZeroLow(words, extraWords);
      LeftAssembled(Contents(), ws, extraWords, inwordShift);
    }

    method ShiftLeftBy(extraWords: nat, inwordShift: nat, ghost s: nat)
      requires Valid() && inwordShift < 64 && s == 64 * extraWords + inwordShift && (inwordShift == 0 || arraysize > 0)
      modifies this, words
      ensures Valid() && (words == old(words) || fresh(words))
      ensures Elements() == Shifted(old(Elements()), s)
      ensures arraysize == LeftSize(old(arraysize), extraWords, inwordShift)
    {
      LeftMembers(Contents(), extraWords, inwordShift, s);
      if inwordShift == 0 {
        ShiftWordsLeft(extraWords);
      } else {
        ShiftBitsLeft(extraWords, inwordShift);
      }
    }

    method ShiftLeft(s: nat)
      requires Valid() && (s % 64 == 0 || arraysize > 0)
      modifies this, words
      ensures Valid() && (words == old(words) || fresh(words))
      ensures Elements() == Shifted(old(Elements()), s)
      ensures arraysize == LeftSize(old(arraysize), s / 64, s % 64)
    {
      var extraWords, inwordShift := WordsAndBits(s);
      ShiftLeftBy(extraWords, inwordShift, s);
    }

    method ShiftWordsRight(extraWords: nat)
      requires Valid() && extraWords <= arraysize
      modifies this, words
      ensures Valid() && (words == old(words) || fresh(words))
      ensures Contents() == RightWords(old(Contents()), extraWords, 0)
    {
      ghost var ws := Contents();
      var size := arraysize;
      MoveDown(words, size, extraWords, ws);
      Resize(size - extraWords, false);
      RightAssembled(Contents(), ws, extraWords, 0);
    }

    method ShiftBitsRight(extraWords: nat, inwordShift: nat)
      requires Valid() && 0 < inwordShift < 64 && extraWords < arraysize
      modifies this, words
      ensures Valid() && (words == old(words) || fresh(words))
      ensures Contents() == RightWords(old(Contents()), extraWords, inwordShift)
    {
      ghost var ws := Contents();
      var size := arraysize;
      ShiftDown(words, size, extraWords, inwordShift, ws);
      Resize(size - extraWords, false);
      RightAssembled(Contents(), ws, extraWords, inwordShift);
    }

    method ShiftRightBy(extraWords: nat, inwordShift: nat, ghost s: nat)
      requires Valid() && inwordShift < 64 && s == 64 * extraWords + inwordShift &&
               (if inwordShift == 0 then extraWords <= arraysize else extraWords < arraysize)
      modifies this, words
      ensures Valid() && (words == old(words) || fresh(words))
      ensures Elements() == Dropped(old(Elements()), s) && arraysize == old(arraysize) - extraWords
    {
      RightMembers(Contents(), extraWords, inwordShift, s);
      if inwordShift == 0 {
        ShiftWordsRight(extraWords);
      } else {
        ShiftBitsRight(extraWords, inwordShift);
      }
    }

    method ShiftRight(s: nat)
      requires Valid() && (if s % 64 == 0 then s / 64 <= arraysize else s / 64 < arraysize)
      modifies this, words
      ensures Valid() && (words == old(words) || fresh(words))
      ensures Elements() == Dropped(old(Elements()), s) && arraysize == old(arraysize) - s / 64
    {
      var extraWords, inwordShift := WordsAndBits(s);
      ShiftRightBy(extraWords, inwordShift, s);
    }

    /** Give back the words above the highest member. */
    method Trim()
      requires Valid()
      modifies this
      ensures Valid() && (words == old(words) || fresh(words))
      ensures Elements() == old(Elements()) && arraysize == TrimmedSize(Elements(), old(arraysize))
    {
      ghost var ws := Contents();
      var newsize: nat := arraysize;
      while newsize > 0
        invariant newsize <= arraysize
        invariant TrimmedSize(Members(ws), arraysize) == TrimmedSize(Members(ws), newsize)
        modifies {}
      {
        TrimStep(ws, newsize - 1);
        if words[newsize - 1] == 0 {
          newsize := newsize - 1;
        } else {
          break;
        }
      }
      TrimmedMembers(ws, newsize);
      if capacity == newsize {
        return;
      }
      arraysize := newsize;
      Reallocate(newsize);
      assert Contents() == ws[..newsize];
    }

    /** A second operand: this bitset itself, or one that shares no memory with it. */
    ghost predicate Apart(b: Bitset)
      reads this, b
    {
      b.Valid() && (b == this || b.words != words)
    }

    method InplaceUnion(b: Bitset)
      requires Valid() && Apart(b)
      modifies this, words
      ensures Valid() && (words == old(words) || fresh(words))
      ensures Elements() == old(Elements()) + old(b.Elements())
      ensures arraysize == Max(old(arraysize), old(b.arraysize))
    {
      ghost var ws, bs := Contents(), b.Contents();
      UnionMembers(ws, bs);
      var minlength := Min(arraysize, b.arraysize);
      for k := 0 to minlength
        invariant forall p: nat :: p < arraysize ==> words[p] == if p < k then OrW(ws[p], bs[p]) else ws[p]
        invariant b != this ==> b.words[..b.arraysize] == bs
        modifies words
      {
        words[k] := OrW(words[k], b.words[k]);
      }
      if b.arraysize > arraysize {
        var oldsize := arraysize;
        Resize(b.arraysize, false);
        forall i | oldsize <= i < b.arraysize {
          words[i] := b.words[i];
        }
      }
      OrZeroes(ws, bs);
      assert Contents() == UnionWords(ws, bs);
    }

    method InplaceIntersection(b: Bitset)
      requires Valid() && Apart(b)
      modifies words
      ensures Valid() && arraysize == old(arraysize) && Elements() == old(Elements()) * old(b.Elements())
    {
      ghost var ws, bs := Contents(), b.Contents();
      AndMembers(ws, bs);
      var minlength := Min(arraysize, b.arraysize);
      for k := 0 to minlength
        invariant forall p: nat :: p < arraysize ==> words[p] == if p < k then AndW(ws[p], bs[p]) else ws[p]
        invariant b != this ==> b.words[..b.arraysize] == bs
      {
        words[k] := AndW(words[k], b.words[k]);
      }
      for k := minlength to arraysize
        invariant forall p: nat :: p < arraysize ==>
                  words[p] == if p < minlength then AndW(ws[p], bs[p]) else if p < k then 0 else ws[p]
      {
        words[k] := 0;
      }
      AndZeroes(ws);
      assert Contents() == AndWords(ws, bs);
    }

    method InplaceDifference(b: Bitset)
      requires Valid() && Apart(b)
      modifies words
      ensures Valid() && arraysize == old(arraysize) && Elements() == old(Elements()) - old(b.Elements())
    {
      ghost var ws, bs := Contents(), b.Contents();
      MinusMembers(ws, bs);
      var minlength := Min(arraysize, b.arraysize);
      for k := 0 to minlength
        invariant forall p: nat :: p < arraysize ==> words[p] == if p < k then AndW(ws[p], Not(bs[p])) else ws[p]
        invariant b != this ==> b.words[..b.arraysize] == bs
      {
        words[k] := AndW(words[k], Not(b.words[k]));
      }
      AndAll(ws);
      assert Contents() == MinusWords(ws, bs);
    }

    method InplaceSymmetricDifference(b: Bitset)
      requires Valid() && Apart(b)
      modifies this, words
      ensures Valid() && (words == old(words) || fresh(words))
      ensures Elements() == Toggle(old(Elements()), old(b.Elements()))
      ensures arraysize == Max(old(arraysize), old(b.arraysize))
    {
      ghost var ws, bs := Contents(), b.Contents();
      XorMembers(ws, bs);
      var minlength := Min(arraysize, b.arraysize);
      for k := 0 to minlength
        invariant forall p: nat :: p < arraysize ==> words[p] == if p < k then XorW(ws[p], bs[p]) else ws[p]
        invariant b != this ==> b.words[..b.arraysize] == bs
        modifies words
      {
        words[k] := XorW(words[k], b.words[k]);
      }
      if b.arraysize > arraysize {
        var oldsize := arraysize;
        Resize(b.arraysize, false);
        forall i | oldsize <= i < b.arraysize {
          words[i] := b.words[i];
        }
      }
      XorZeroes(ws);
      assert Contents() == XorWords(ws, bs);
    }
  }

  /** The number of words after a shift to the left by e words and k bits. */
  function LeftSize(n: nat, e: nat, k: nat): (r: nat) {
    n + e + (if k == 0 then 0 else 1)
  }

  /** Of n words, as many as are needed for the members. */
  ghost function TrimmedSize(s: set<nat>, n: nat): (r: nat)
    ensures r <= n
  {
    if n == 0 then 0
    else if exists x :: x in s && 64 * (n - 1) <= x < 64 * n then n
    else TrimmedSize(s, n - 1)
  }

  /** Everything fits the words that are kept, and the last of them is needed. */
  lemma {:induction false} TrimmedFits(s: set<nat>, n: nat)
    requires forall x :: x in s ==> x < 64 * n
    ensures var r := TrimmedSize(s, n);
            (forall x :: x in s ==> x < 64 * r) && (r > 0 ==> exists x :: x in s && 64 * (r - 1) <= x)
  {
    if n > 0 && !exists x :: x in s && 64 * (n - 1) <= x < 64 * n {
      TrimmedFits(s, n - 1);
    }
  }

  lemma TrimStep(ws: seq<Word>, k: nat)
    requires k < |ws|
    ensures TrimmedSize(Members(ws), k + 1) == if ws[k] == 0 then TrimmedSize(Members(ws), k) else k + 1
  {
    var s := Members(ws);
    if ws[k] == 0 {
      forall x: nat | 64 * k <= x < 64 * (k + 1) ensures x !in s {
        BitZero(x % 64);
        InMembers(ws, x);
      }
    } else {
      CtzBelow(ws[k]);
      CtzBit(ws[k], 0);
      DivMod64(64 * k + Ctz(ws[k]), k, Ctz(ws[k]));
      InMembers(ws, 64 * k + Ctz(ws[k]));
      assert 64 * k + Ctz(ws[k]) in s;
    }
  }

  lemma TrimmedMembers(ws: seq<Word>, n: nat)
    requires n <= |ws| && TrimmedSize(Members(ws), |ws|) == TrimmedSize(Members(ws), n)
    ensures Members(ws[..n]) == Members(ws)
  {
    TrimmedFits(Members(ws), |ws|);
    forall x: nat ensures Has(ws[..n], x) <==> x in Members(ws) {
      InMembers(ws, x);
    }
    SameMembers(ws[..n], Members(ws));
  }

  method WordsAndBits(s: nat) returns (extraWords: nat, inwordShift: nat)
    ensures extraWords == s / 64 && inwordShift == s % 64 && s == 64 * extraWords + inwordShift
  {
    extraWords, inwordShift := s / 64, s % 64;
  }

  /** Move size words up by extraWords, from the top down so that no word is read after it is written. */
  method MoveUp(a: array<Word>, size: nat, extraWords: nat, ghost ws: seq<Word>)
    requires size + extraWords <= a.Length && |ws| == size && forall p: nat :: p < size ==> a[p] == ws[p]
    modifies a
    ensures forall p: nat :: p < size ==> a[p + extraWords] == ws[p]
  {
    var i := size + extraWords;
    while i > extraWords
      invariant extraWords <= i <= size + extraWords
      invariant forall p: nat :: i <= p + extraWords < size + extraWords ==> a[p + extraWords] == ws[p]
      invariant forall p: nat :: p < i && p < size ==> a[p] == ws[p]
    {
      a[i - 1] := a[i - 1 - extraWords];
      i := i - 1;
    }
  }

  /** The same with bits crossing from word to word; one more word takes what the top word pushes out. */
  method ShiftUp(a: array<Word>, size: nat, extraWords: nat, inwordShift: nat, ghost ws: seq<Word>)
    requires 0 < size && size + extraWords < a.Length && 0 < inwordShift < 64
    requires |ws| == size && forall p: nat :: p < size ==> a[p] == ws[p]
    modifies a
    ensures forall p: nat :: p <= size ==> a[p + extraWords] == MergeUp(ws, inwordShift, p)
  {
    a[size + extraWords] := Shr(a[size - 1], 64 - inwordShift);
    ShlZero(inwordShift);
    var i := size + extraWords;
    while i >= extraWords + 2
      invariant extraWords + 1 <= i <= size + extraWords
      invariant forall p: nat :: i <= p + extraWords <= size + extraWords ==>
                a[p + extraWords] == MergeUp(ws, inwordShift, p)
      invariant forall p: nat :: p < i && p < size ==> a[p] == ws[p]
    {
      a[i - 1] := OrW(Shl(a[i - 1 - extraWords], inwordShift), Shr(a[i - 2 - extraWords], 64 - inwordShift));
      assert a[i - 1] == MergeUp(ws, inwordShift, i - 1 - extraWords);
      i := i - 1;
    }
    a[extraWords] := Shl(a[0], inwordShift);
  }

  method ZeroLow(a: array<Word>, n: nat)
    requires n <= a.Length
    modifies a
    ensures forall p: nat :: p < a.Length ==> a[p] == if p < n then 0 else old(a[p])
  {
    for i := 0 to n
      invariant forall p: nat :: p < a.Length ==> a[p] == if p < i then 0 else old(a[p])
    {
      a[i] := 0;
    }
  }

  /** Move words down by extraWords, from the bottom up. */
  method MoveDown(a: array<Word>, size: nat, extraWords: nat, ghost ws: seq<Word>)
    requires extraWords <= size <= a.Length && |ws| == size && forall p: nat :: p < size ==> a[p] == ws[p]
    modifies a
    ensures forall p: nat :: p < size - extraWords ==> a[p] == ws[p + extraWords]
  {
    for i := 0 to size - extraWords
      invariant forall p: nat :: p < i ==> a[p] == ws[p + extraWords]
      invariant forall p: nat :: i <= p < size ==> a[p] == ws[p]
    {
      a[i] := a[i + extraWords];
    }
  }

  method ShiftDown(a: array<Word>, size: nat, extraWords: nat, inwordShift: nat, ghost ws: seq<Word>)
    requires extraWords < size <= a.Length && 0 < inwordShift < 64
    requires |ws| == size && forall p: nat :: p < size ==> a[p] == ws[p]
    modifies a
    ensures forall p: nat :: p < size - extraWords ==> a[p] == MergeDown(ws, inwordShift, p + extraWords)
  {
    var i := 0;
    while i + extraWords + 1 < size
      invariant i + extraWords + 1 <= size
      invariant forall p: nat :: p < i ==> a[p] == MergeDown(ws, inwordShift, p + extraWords)
      invariant forall p: nat :: i <= p < size ==> a[p] == ws[p]
    {
      a[i] := OrW(Shr(a[i + extraWords], inwordShift), Shl(a[i + extraWords + 1], 64 - inwordShift));
      i := i + 1;
    }
    a[size - extraWords - 1] := Shr(a[size - 1], inwordShift);
  }

  function Zeros(n: nat): (r: seq<Word>) {
    seq(n, _ => 0)
  }

  lemma ZerosEmpty(n: nat)
    ensures Members(Zeros(n)) == {}
  {
    forall x: nat ensures Has(Zeros(n), x) <==> x in {} {
      BitZero(x % 64);
    }
    SameMembers(Zeros(n), {});
  }

  lemma PadMembers(ws: seq<Word>, n: nat)
    ensures Members(ws + Zeros(n)) == Members(ws)
  {
    forall x: nat ensures Has(ws + Zeros(n), x) <==> x in Members(ws) {
      InMembers(ws, x);
      BitZero(x % 64);
    }
    SameMembers(ws + Zeros(n), Members(ws));
  }

  /** 1 << b has bit b and no other. */
  lemma OneBit(b: nat, j: nat)
    requires b < 64 && j < 64
    ensures Bit(Shl(1, b), j) <==> j == b
  {
    ShlBit(1, b, j);
    if j > b {
      BitZero(j - b - 1);
    }
  }

  /** w & (1 << b) is zero exactly when bit b of w is. */
  lemma SingleBit(w: Word, b: nat)
    requires b < 64
    ensures AndW(w, Shl(1, b)) != 0 <==> Bit(w, b)
  {
    var r := AndW(w, Shl(1, b));
    if Bit(w, b) {
      AndBit(w, Shl(1, b), b);
      OneBit(b, b);
      BitNonZero(r, b);
    } else if r != 0 {
      CtzBelow(r);
      CtzBit(r, 0);
      AndBit(w, Shl(1, b), Ctz(r));
      OneBit(b, Ctz(r));
    }
  }

  function Inserted(ws: seq<Word>, i: nat): (r: seq<Word>)
    requires i / 64 < |ws|
  {
    ws[i / 64 := OrW(ws[i / 64], Shl(1, i % 64))]
  }

  lemma InsertMembers(ws: seq<Word>, i: nat)
    requires i / 64 < |ws|
    ensures Members(Inserted(ws, i)) == Members(ws) + {i}
  {
    forall x: nat ensures Has(Inserted(ws, i), x) <==> x in Members(ws) + {i} {
      InMembers(ws, x);
      OrBit(ws[i / 64], Shl(1, i % 64), x % 64);
      OneBit(i % 64, x % 64);
    }
    SameMembers(Inserted(ws, i), Members(ws) + {i});
  }

  function Removed(ws: seq<Word>, i: nat): (r: seq<Word>)
    requires i / 64 < |ws|
  {
    ws[i / 64 := AndW(ws[i / 64], Not(Shl(1, i % 64)))]
  }

  lemma RemoveMembers(ws: seq<Word>, i: nat)
    requires i / 64 < |ws|
    ensures Members(Removed(ws, i)) == Members(ws) - {i}
  {
    forall x: nat ensures Has(Removed(ws, i), x) <==> x in Members(ws) - {i} {
      InMembers(ws, x);
      AndBit(ws[i / 64], Not(Shl(1, i % 64)), x % 64);
      NotBit(Shl(1, i % 64), x % 64);
      OneBit(i % 64, x % 64);
    }
    SameMembers(Removed(ws, i), Members(ws) - {i});
  }

  lemma {:induction false} ShlZero(k: nat)
    ensures Shl(0, k) == 0
  {
    if k > 0 {
      ShlZero(k - 1);
    }
  }

  lemma OrZeroes(a: seq<Word>, b: seq<Word>)
    ensures forall p: nat :: p < |a| ==> OrW(a[p], 0) == a[p]
    ensures forall p: nat :: p < |b| ==> OrW(0, b[p]) == b[p]
  {
    forall p: nat | p < |a| ensures OrW(a[p], 0) == a[p] {
      OrZero(a[p]);
    }
  }

  lemma {:induction false} AndZero(a: nat)
    ensures And(a, 0) == 0
  {
    if a > 0 {
      AndZero(a / 2);
    }
  }

  lemma AndZeroes(a: seq<Word>)
    ensures forall p: nat :: p < |a| ==> AndW(a[p], 0) == 0
  {
    forall p: nat | p < |a| ensures AndW(a[p], 0) == 0 {
      AndZero(a[p]);
    }
  }

  lemma {:induction false} AndOnes(a: nat, n: nat)
    requires a < Pow2(n)
    ensures And(a, Pow2(n) - 1) == a
  {
    if a > 0 {
      assert (Pow2(n) - 1) / 2 == Pow2(n - 1) - 1;
      AndOnes(a / 2, n - 1);
    }
  }

  lemma AndAll(a: seq<Word>)
    ensures forall p: nat :: p < |a| ==> AndW(a[p], Not(0)) == a[p]
  {
    WordIsPow2();
    forall p: nat | p < |a| ensures AndW(a[p], Not(0)) == a[p] {
      AndOnes(a[p], 64);
    }
  }

  lemma {:induction false} XorZero(a: nat)
    ensures Xor(a, 0) == a
  {
    if a > 0 {
      XorZero(a / 2);
    }
  }

  lemma XorZeroes(a: seq<Word>)
    ensures forall p: nat :: p < |a| ==> XorW(a[p], 0) == a[p]
  {
    forall p: nat | p < |a| ensures XorW(a[p], 0) == a[p] {
      XorZero(a[p]);
    }
  }
}
