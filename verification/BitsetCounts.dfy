/** Counting members, word by word, in unrolled loops. */
module BitsetCounts {
  import opened Words
  import opened WordSets
  import opened Bitset

  lemma TotalStep(ws: seq<Word>, k: nat)
    requires k < |ws|
    ensures TotalCount(ws[..k + 1]) == TotalCount(ws[..k]) + PopCount(ws[k])
  {
    assert ws[..k + 1][..k] == ws[..k];
  }

  lemma TotalStep4(ws: seq<Word>, k: nat)
    requires k + 4 <= |ws|
    ensures TotalCount(ws[..k + 4])
         == TotalCount(ws[..k]) + PopCount(ws[k]) + PopCount(ws[k + 1]) + PopCount(ws[k + 2]) + PopCount(ws[k + 3])
  {
    TotalStep(ws, k);
    TotalStep(ws, k + 1);
    TotalStep(ws, k + 2);
    TotalStep(ws, k + 3);
  }

  lemma TotalAll(ws: seq<Word>)
    ensures TotalCount(ws[..0]) == 0 && TotalCount(ws[..|ws|]) == |Members(ws)|
  {
    assert ws[..|ws|] == ws;
    TotalCountIs(ws);
  }

  /** The number of members. */
  method Count(b: Bitset) returns (card: nat)
    requires b.Valid()
    ensures card == |b.Elements()|
  {
    ghost var ws := b.Contents();
    TotalAll(ws);
    var k := 0;
    card := 0;
    while k + 7 < b.arraysize
      invariant k <= b.arraysize && card == TotalCount(ws[..k])
    {
      TotalStep4(ws, k);
      TotalStep4(ws, k + 4);
      card := card + PopCount(b.words[k]);
      card := card + PopCount(b.words[k + 1]);
      card := card + PopCount(b.words[k + 2]);
      card := card + PopCount(b.words[k + 3]);
      card := card + PopCount(b.words[k + 4]);
      card := card + PopCount(b.words[k + 5]);
      card := card + PopCount(b.words[k + 6]);
      card := card + PopCount(b.words[k + 7]);
      k := k + 8;
    }
    card := CountRest(b, k, card, ws);
  }

  /** Add the words from k on, where they agree with us, in steps of four and then of one. */
  method CountRest(b: Bitset, start: nat, sofar: nat, ghost us: seq<Word>) returns (answer: nat)
    requires b.Valid() && start <= b.arraysize == |us|
    requires forall p: nat :: start <= p < |us| ==> us[p] == b.words[p]
    requires sofar == TotalCount(us[..start])
    ensures answer == TotalCount(us[..|us|])
  {
    var k := start;
    answer := sofar;
    while k + 3 < b.arraysize
      invariant start <= k <= b.arraysize && answer == TotalCount(us[..k])
    {
      TotalStep4(us, k);
      answer := answer + PopCount(b.words[k]);
      answer := answer + PopCount(b.words[k + 1]);
      answer := answer + PopCount(b.words[k + 2]);
      answer := answer + PopCount(b.words[k + 3]);
      k := k + 4;
    }
    answer := CountTail(b, k, answer, us);
  }

  method CountTail(b: Bitset, start: nat, sofar: nat, ghost us: seq<Word>) returns (answer: nat)
    requires b.Valid() && start <= b.arraysize == |us|
    requires forall p: nat :: start <= p < |us| ==> us[p] == b.words[p]
    requires sofar == TotalCount(us[..start])
    ensures answer == TotalCount(us[..|us|])
  {
    answer := sofar;
    for k := start to b.arraysize
      invariant answer == TotalCount(us[..k])
    {
      TotalStep(us, k);
      answer := answer + PopCount(b.words[k]);
    }
  }

  /** The unrolled loop over the words both bitsets have. */
  method CountUnionHead(b1: Bitset, b2: Bitset, ghost us: seq<Word>) returns (answer: nat)
    requires b1.Valid() && b2.Valid() && us == UnionWords(b1.Contents(), b2.Contents())
    ensures answer == TotalCount(us[..Min(b1.arraysize, b2.arraysize)])
  {
    var minlength := Min(b1.arraysize, b2.arraysize);
    var k := 0;
    answer := 0;
    while k + 3 < minlength
      invariant k <= minlength && answer == TotalCount(us[..k])
    {
      TotalStep4(us, k);
      answer := answer + PopCount(OrW(b1.words[k], b2.words[k]));
      answer := answer + PopCount(OrW(b1.words[k + 1], b2.words[k + 1]));
      answer := answer + PopCount(OrW(b1.words[k + 2], b2.words[k + 2]));
      answer := answer + PopCount(OrW(b1.words[k + 3], b2.words[k + 3]));
      k := k + 4;
    }
    while k < minlength
      invariant k <= minlength && answer == TotalCount(us[..k])
    {
      TotalStep(us, k);
      answer := answer + PopCount(OrW(b1.words[k], b2.words[k]));
      k := k + 1;
    }
  }

  method UnionCount(b1: Bitset, b2: Bitset) returns (answer: nat)
    requires b1.Valid() && b2.Valid()
    ensures answer == |b1.Elements() + b2.Elements()|
  {
    ghost var us := UnionWords(b1.Contents(), b2.Contents());
    UnionMembers(b1.Contents(), b2.Contents());
    TotalAll(us);
    OrZeroes(b1.Contents(), b2.Contents());
    answer := CountUnionHead(b1, b2, us);
    if b2.arraysize > b1.arraysize {
      answer := CountRest(b2, b1.arraysize, answer, us);
    } else {
      answer := CountRest(b1, b2.arraysize, answer, us);
    }
  }

  method IntersectionCount(b1: Bitset, b2: Bitset) returns (answer: nat)
    requires b1.Valid() && b2.Valid()
    ensures answer == |b1.Elements() * b2.Elements()|
  {
    ghost var ws := b1.Contents();
    ghost var us := AndWords(ws, b2.Contents());
    AndMembers(ws, b2.Contents());
    TotalAll(us);
    var minlength := Min(b1.arraysize, b2.arraysize);
    answer := 0;
    for k := 0 to minlength
      invariant answer == TotalCount(us[..k])
    {
      TotalStep(us, k);
      answer := answer + PopCount(AndW(b1.words[k], b2.words[k]));
    }
    AndZeroes(ws);
    TrailingZeroes(us, minlength);
  }

  /** Words that are zero add nothing to the count. */
  lemma {:induction false} TrailingZeroes(us: seq<Word>, k: nat)
    requires k <= |us| && forall p: nat :: k <= p < |us| ==> us[p] == 0
    ensures TotalCount(us[..k]) == TotalCount(us[..|us|])
    decreases |us| - k
  {
    if k < |us| {
      TotalStep(us, k);
      TrailingZeroes(us, k + 1);
    }
  }

  method DifferenceCount(b1: Bitset, b2: Bitset) returns (answer: nat)
    requires b1.Valid() && b2.Valid()
    ensures answer == |b1.Elements() - b2.Elements()|
  {
    ghost var us := MinusWords(b1.Contents(), b2.Contents());
    MinusMembers(b1.Contents(), b2.Contents());
    TotalAll(us);
    var minlength := Min(b1.arraysize, b2.arraysize);
    answer := 0;
    for k := 0 to minlength
      invariant answer == TotalCount(us[..k])
    {
      TotalStep(us, k);
      answer := answer + PopCount(AndW(b1.words[k], Not(b2.words[k])));
    }
    AndAll(b1.Contents());
    answer := CountTail(b1, minlength, answer, us);
  }

  /** The loop over the words both bitsets have. */
  method CountXorHead(b1: Bitset, b2: Bitset, minlength: nat, ghost us: seq<Word>) returns (answer: nat)
    requires b1.Valid() && b2.Valid() && us == XorWords(b1.Contents(), b2.Contents())
    requires minlength <= b1.arraysize && minlength <= b2.arraysize
    ensures answer == TotalCount(us[..minlength])
  {
    answer := 0;
    for k := 0 to minlength
      invariant answer == TotalCount(us[..k])
    {
      TotalStep(us, k);
      answer := answer + PopCount(XorW(b1.words[k], b2.words[k]));
    }
  }

  method SymmetricDifferenceCount(b1: Bitset, b2: Bitset) returns (answer: nat)
    requires b1.Valid() && b2.Valid()
    ensures answer == |Toggle(b1.Elements(), b2.Elements())|
  {
    ghost var us := XorWords(b1.Contents(), b2.Contents());
    XorMembers(b1.Contents(), b2.Contents());
    TotalAll(us);
    XorZeroes(b1.Contents());
    var minlength := Min(b1.arraysize, b2.arraysize);
    answer := CountXorHead(b1, b2, minlength, us);
    if b2.arraysize > b1.arraysize {
      answer := CountTail(b2, minlength, answer, us);
    } else {
      answer := CountTail(b1, minlength, answer, us);
    }
  }

  /** Counting first and then combining in place agree, and the two counts add up. */
  method CountAgrees(b1: Bitset, b2: Bitset) returns (before: nat, after: nat)
    requires b1.Valid() && b1.Apart(b2)
    modifies b1, b1.words
    ensures b1.Valid() && before == after == |b1.Elements()|
    ensures b1.Elements() == old(b1.Elements()) + old(b2.Elements())
    ensures before + |old(b1.Elements()) * old(b2.Elements())| == |old(b1.Elements())| + |old(b2.Elements())|
  {
    before := UnionCount(b1, b2);
    b1.InplaceUnion(b2);
    after := Count(b1);
  }
}
