/** The in-place exchange of two adjacent blocks of argv. */
module PermuteArgs {
  import opened Cycles

  /** The block [mid, to) moved in front of the block [from, mid), everything else in place. */
  function Exchange<T>(s: seq<T>, from: nat, mid: nat, to: nat): (r: seq<T>)
    requires from <= mid <= to <= |s|
  {
    s[..from] + s[mid..to] + s[from..mid] + s[to..]
  }

  /** The two cells x and y exchanged. */
  function Swapped<T>(s: seq<T>, x: nat, y: nat): (r: seq<T>)
    requires x < |s| && y < |s|
    ensures |r| == |s|
  {
    s[x := s[y]][y := s[x]]
  }

  lemma SwapElsewhere<T>(s: seq<T>, x: nat, y: nat, i: nat)
    requires x < |s| && y < |s| && i < |s| && i != x && i != y
    ensures Swapped(s, x, y)[i] == s[i]
  {
  }

  /** The array after j swaps of the walk from c. */
  ghost function Walk<T>(s: seq<T>, from: nat, m: nat, k: nat, c: nat, j: nat): (w: seq<T>)
    requires c < m + k && from + m + k <= |s|
    ensures |w| == |s|
  {
    if j == 0 then s
    else Swapped(Walk(s, from, m, k, c, j - 1), from + Pos(c, j, m, k), from + c)
  }

  /** The walk leaves alone every cell it does not visit. */
  lemma {:induction false} WalkOutside<T>(s: seq<T>, from: nat, m: nat, k: nat, c: nat, j: nat, x: nat)
    requires c < m + k && from + m + k <= |s| && x < |s|
    requires x < from || (forall t: nat :: t <= j ==> x - from != Pos(c, t, m, k))
    ensures Walk(s, from, m, k, c, j)[x] == s[x]
  {
    assert x >= from ==> x - from != Pos(c, 0, m, k) && x - from != Pos(c, j, m, k);
    if j > 0 {
      WalkOutside(s, from, m, k, c, j - 1, x);
    }
  }

  lemma WalkStep<T>(s: seq<T>, from: nat, m: nat, k: nat, c: nat, j: nat, p: nat)
    requires c < m + k && from + m + k <= |s| && 0 < j && p < m + k && p != c && p != Pos(c, j, m, k)
    ensures Walk(s, from, m, k, c, j)[from + p] == Walk(s, from, m, k, c, j - 1)[from + p]
  {
    SwapElsewhere(Walk(s, from, m, k, c, j - 1), from + Pos(c, j, m, k), from + c, from + p);
  }

  /** Until the walk comes round, its start holds the cell it is at. */
  lemma {:induction false} WalkStart<T>(s: seq<T>, r: Ring, from: nat, c: nat, j: nat)
    requires c < r.m + r.k && from + r.m + r.k <= |s| && j < r.len
    ensures Walk(s, from, r.m, r.k, c, j)[from + c] == s[from + Pos(c, j, r.m, r.k)]
  {
    if j > 0 {
      forall t: nat | t <= j - 1 ensures Pos(c, j, r.m, r.k) != Pos(c, t, r.m, r.k) {
        PosDistinct(r, c, t, j);
      }
      WalkOutside(s, from, r.m, r.k, c, j - 1, from + Pos(c, j, r.m, r.k));
    }
  }

  /** Each visited cell gets what the cell before it held ... */
  lemma WalkLands<T>(s: seq<T>, r: Ring, from: nat, c: nat, j: nat)
    requires c < r.m + r.k && from + r.m + r.k <= |s| && 0 < j < r.len
    ensures Walk(s, from, r.m, r.k, c, j)[from + Pos(c, j, r.m, r.k)] == s[from + Pos(c, j - 1, r.m, r.k)]
  {
    PosDistinct(r, c, 0, j);
    WalkStart(s, r, from, c, j - 1);
  }

  /** ... and keeps it. */
  lemma {:induction false} WalkKeeps<T>(s: seq<T>, r: Ring, from: nat, c: nat, i: nat, j: nat, p: nat)
    requires c < r.m + r.k && from + r.m + r.k <= |s| && 0 < i <= j < r.len && p == Pos(c, i, r.m, r.k)
    ensures Walk(s, from, r.m, r.k, c, j)[from + p] == Walk(s, from, r.m, r.k, c, i)[from + p]
  {
    if i < j {
      WalkKeeps(s, r, from, c, i, j - 1, p);
      PosDistinct(r, c, 0, i);
      PosDistinct(r, c, i, j);
      WalkStep(s, from, r.m, r.k, c, j, p);
    }
  }

  lemma WalkVisited<T>(s: seq<T>, r: Ring, from: nat, c: nat, j: nat, t: nat)
    requires c < r.m + r.k && from + r.m + r.k <= |s| && t < j < r.len
    ensures Walk(s, from, r.m, r.k, c, j)[from + Pos(c, t + 1, r.m, r.k)] == s[from + Pos(c, t, r.m, r.k)]
  {
    WalkLands(s, r, from, c, t + 1);
    WalkKeeps(s, r, from, c, t + 1, j, Pos(c, t + 1, r.m, r.k));
  }

  /** The last swap of a full cycle is of the start with itself. */
  lemma WalkCloses<T>(s: seq<T>, r: Ring, from: nat, c: nat)
    requires c < r.m + r.k && from + r.m + r.k <= |s|
    ensures Walk(s, from, r.m, r.k, c, r.len) == Walk(s, from, r.m, r.k, c, r.len - 1)
  {
    PosCloses(r, c);
  }

  /** A full cycle moves every cell it visits one step. */
  lemma CycleSteps<T>(s: seq<T>, r: Ring, from: nat, c: nat, j: nat)
    requires c < r.m + r.k && from + r.m + r.k <= |s| && j < r.len
    ensures Walk(s, from, r.m, r.k, c, r.len)[from + Pos(c, j + 1, r.m, r.k)] == s[from + Pos(c, j, r.m, r.k)]
  {
    WalkCloses(s, r, from, c);
    if j + 1 == r.len {
      PosCloses(r, c);
      WalkStart(s, r, from, c, j);
    } else {
      WalkVisited(s, r, from, c, r.len - 1, j);
    }
  }

  /** A full cycle moves every cell of its residue class one step ... */
  lemma CycleMoves<T>(s: seq<T>, r: Ring, from: nat, i: nat, p: nat)
    requires i < r.g && from + r.m + r.k <= |s| && p < r.m + r.k && p % r.g == i
    ensures Walk(s, from, r.m, r.k, r.m + i, r.len)[from + Next(p, r.m, r.k)] == s[from + p]
  {
    var j := PosCovers(r, i, p);
    CycleSteps(s, r, from, r.m + i, j);
  }

  /** ... and no other. */
  lemma CycleKeeps<T>(s: seq<T>, r: Ring, from: nat, i: nat, p: nat)
    requires i < r.g && from + r.m + r.k <= |s| && p < r.m + r.k && p % r.g != i
    ensures Walk(s, from, r.m, r.k, r.m + i, r.len)[from + p] == s[from + p]
  {
    var c := r.m + i;
    forall t: nat | t <= r.len ensures p != Pos(c, t, r.m, r.k) {
      PosResidue(r, i, t);
    }
    WalkOutside(s, from, r.m, r.k, c, r.len, from + p);
  }

  /** The array after the first i cycles. */
  ghost function Walks<T>(s: seq<T>, from: nat, m: nat, k: nat, len: nat, i: nat): (w: seq<T>)
    requires from + m + k <= |s| && i <= k
    ensures |w| == |s|
  {
    if i == 0 then s
    else Walk(Walks(s, from, m, k, len, i - 1), from, m, k, m + (i - 1), len)
  }

  lemma NextResidue(r: Ring, p: nat)
    requires p < r.m + r.k
    ensures Next(p, r.m, r.k) % r.g == p % r.g
  {
    var j := PosCovers(r, p % r.g, p);
    PosResidue(r, p % r.g, j + 1);
  }

  /** After i cycles exactly the cells of the first i residue classes have moved one step. */
  lemma {:induction false} WalksMove<T>(s: seq<T>, r: Ring, from: nat, i: nat, p: nat)
    requires from + r.m + r.k <= |s| && i <= r.g && p < r.m + r.k
    ensures var w := Walks(s, from, r.m, r.k, r.len, i);
            if p % r.g < i then w[from + Next(p, r.m, r.k)] == s[from + p] else w[from + p] == s[from + p]
  {
    if i > 0 {
      WalksMove(s, r, from, i - 1, p);
      var now := Walks(s, from, r.m, r.k, r.len, i - 1);
      if p % r.g < i - 1 {
        NextResidue(r, p);
        CycleKeeps(now, r, from, i - 1, Next(p, r.m, r.k));
      } else if p % r.g == i - 1 {
        CycleMoves(now, r, from, i - 1, p);
      } else {
        CycleKeeps(now, r, from, i - 1, p);
      }
    }
  }

  /** No cycle touches a cell outside the two blocks. */
  lemma {:induction false} WalksOutside<T>(s: seq<T>, r: Ring, from: nat, i: nat, x: nat)
    requires from + r.m + r.k <= |s| && i <= r.g
    requires x < |s| && !(from <= x < from + r.m + r.k)
    ensures Walks(s, from, r.m, r.k, r.len, i)[x] == s[x]
  {
    if i > 0 {
      WalksOutside(s, r, from, i - 1, x);
      WalkOutside(Walks(s, from, r.m, r.k, r.len, i - 1), from, r.m, r.k, r.m + (i - 1), r.len, x);
    }
  }

  /** All gcd-many cycles together are the block exchange. */
  lemma WalksExchange<T>(s: seq<T>, start: nat, end: nat, optEnd: nat, g: nat, len: nat)
    requires start <= end < optEnd <= |s| && g == GcdOf(end - start, optEnd - end) && len == (optEnd - start) / g
    ensures Walks(s, start, end - start, optEnd - end, len, g) == Exchange(s, start, end, optEnd)
  {
    var r := GcdRing(end - start, optEnd - end);
    var w, e := Walks(s, start, r.m, r.k, r.len, r.g), Exchange(s, start, end, optEnd);
    forall x: nat | x < |s| ensures w[x] == e[x] {
      WalksExchangeAt(s, r, start, x);
      ExchangeAt(s, start, end, optEnd, x);
    }
  }

  /** Where the entry at x after the exchange was before it. */
  function Origin(start: nat, end: nat, optEnd: nat, x: nat): (y: nat)
    requires start <= end <= optEnd
  {
    if start <= x < start + (optEnd - end) then x + (end - start)
    else if start + (optEnd - end) <= x < optEnd then x - (optEnd - end)
    else x
  }

  lemma ExchangeAt<T>(s: seq<T>, start: nat, end: nat, optEnd: nat, x: nat)
    requires start <= end <= optEnd <= |s| && x < |s|
    ensures |Exchange(s, start, end, optEnd)| == |s| && Origin(start, end, optEnd, x) < |s|
    ensures Exchange(s, start, end, optEnd)[x] == s[Origin(start, end, optEnd, x)]
  {
  }

  lemma WalksExchangeAt<T>(s: seq<T>, r: Ring, start: nat, x: nat)
    requires start + r.m + r.k <= |s| && x < |s|
    ensures Walks(s, start, r.m, r.k, r.len, r.g)[x] == s[Origin(start, start + r.m, start + r.m + r.k, x)]
  {
    if start <= x < start + r.k {
      WalksMove(s, r, start, r.g, x - start + r.m);
    } else if start + r.k <= x < start + r.m + r.k {
      WalksMove(s, r, start, r.g, x - start - r.k);
    } else {
      WalksOutside(s, r, start, r.g, x);
    }
  }

  method Gcd(a0: nat, b0: nat) returns (g: nat)
    requires b0 > 0
    ensures g == GcdOf(a0, b0) && 0 < g <= b0
  {
    var a, b := a0, b0;
    var c := a % b;
    while c != 0
      invariant b > 0 && c == a % b
      invariant GcdOf(a, b) == GcdOf(a0, b0)
      decreases b
    {
      a := b;
      b := c;
      c := a % b;
    }
    return b;
  }

  /** Walk one cycle, swapping each visited cell with the cell the cycle started from. */
  method FollowCycle<T>(start: nat, end: nat, optEnd: nat, argv: array<T>, cstart: nat, cyclelen: nat)
    requires start <= end <= cstart < optEnd <= argv.Length
    modifies argv
    ensures argv[..] == Walk(old(argv[..]), start, end - start, optEnd - end, cstart - start, cyclelen)
  {
    ghost var before := argv[..];
    var nnonopts, nopts := end - start, optEnd - end;
    var pos := cstart;
    for j := 0 to cyclelen
      invariant pos == start + Pos(cstart - start, j, nnonopts, nopts)
      invariant argv[..] == Walk(before, start, nnonopts, nopts, cstart - start, j)
    {
      if pos >= end {
        pos := pos - nnonopts;
      } else {
        pos := pos + nopts;
      }
      var swap := argv[pos];
      argv[pos] := argv[cstart];
      argv[cstart] := swap;
    }
  }

  /** Walk the first ncycle cycles. */
  method FollowCycles<T>(start: nat, end: nat, optEnd: nat, argv: array<T>, ncycle: nat, cyclelen: nat)
    requires start <= end && end + ncycle <= optEnd <= argv.Length
    modifies argv
    ensures argv[..] == Walks(old(argv[..]), start, end - start, optEnd - end, cyclelen, ncycle)
  {
    for i := 0 to ncycle
      invariant argv[..] == Walks(old(argv[..]), start, end - start, optEnd - end, cyclelen, i)
    {
      FollowCycle(start, end, optEnd, argv, end + i, cyclelen);
    }
  }

  /**
    Exchange the block [start, end) with the block [end, optEnd) in place,
    following gcd-many cycles.
  */
  method Permute<T>(start: nat, end: nat, optEnd: nat, argv: array<T>)
    requires start <= end < optEnd <= argv.Length
    modifies argv
    ensures argv[..] == Exchange(old(argv[..]), start, end, optEnd)
  {
    var nnonopts := end - start;
    var nopts := optEnd - end;
    var ncycle := Gcd(nnonopts, nopts);
    var cyclelen := (optEnd - start) / ncycle;
    WalksExchange(argv[..], start, end, optEnd, ncycle, cyclelen);
    FollowCycles(start, end, optEnd, argv, ncycle, cyclelen);
  }
}
