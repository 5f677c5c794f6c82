/**
  The permuting scan of getopt_long: non-options are skipped, options are
  consumed, and the two kinds are lazily exchanged in argv so that in the end
  all options precede all skipped non-options.
*/
module Getopt {
  import opened PermuteArgs

  /** The entries of s whose mark is `want`, in order. */
  ghost function Pick<T>(s: seq<T>, marks: seq<bool>, want: bool): (r: seq<T>)
    requires |marks| == |s|
  {
    if s == [] then []
    else
      var n := |s| - 1;
      Pick(s[..n], marks[..n], want) + if marks[n] == want then [s[n]] else []
  }

  lemma PickSnoc<T>(s: seq<T>, marks: seq<bool>, x: T, mark: bool, want: bool)
    requires |marks| == |s|
    ensures Pick(s + [x], marks + [mark], want) == Pick(s, marks, want) + if mark == want then [x] else []
  {
    assert (s + [x])[..|s|] == s;
    assert (marks + [mark])[..|s|] == marks;
  }

  ghost function Marks(n: nat, mark: bool): (r: seq<bool>)
    ensures |r| == n
  {
    seq(n, i => mark)
  }

  /** Marking further entries as options appends them to the options and leaves the rest alone. */
  lemma {:induction false} PickAppend<T>(s: seq<T>, marks: seq<bool>, t: seq<T>)
    requires |marks| == |s|
    ensures Pick(s + t, marks + Marks(|t|, true), true) == Pick(s, marks, true) + t
    ensures Pick(s + t, marks + Marks(|t|, true), false) == Pick(s, marks, false)
  {
    if t == [] {
      assert s + t == s && marks + Marks(0, true) == marks;
    } else {
      var n := |t| - 1;
      PickAppend(s, marks, t[..n]);
      PickSnoc(s + t[..n], marks + Marks(n, true), t[n], true, true);
      PickSnoc(s + t[..n], marks + Marks(n, true), t[n], true, false);
      assert s + t[..n] + [t[n]] == s + t;
      assert marks + Marks(n, true) + [true] == marks + Marks(|t|, true);
      assert t[..n] + [t[n]] == t;
    }
  }

  /** Options and non-options together are all entries. */
  lemma {:induction false} PickMultiset<T>(s: seq<T>, marks: seq<bool>)
    requires |marks| == |s|
    ensures multiset(Pick(s, marks, true)) + multiset(Pick(s, marks, false)) == multiset(s)
  {
    if s != [] {
      var n := |s| - 1;
      PickMultiset(s[..n], marks[..n]);
      var o, k := Pick(s[..n], marks[..n], true), Pick(s[..n], marks[..n], false);
      assert multiset(s) == multiset(s[..n]) + multiset{s[n]} by {
        assert s == s[..n] + [s[n]];
      }
      if marks[n] {
        assert Pick(s, marks, true) == o + [s[n]] && Pick(s, marks, false) == k + [];
      } else {
        assert Pick(s, marks, true) == o + [] && Pick(s, marks, false) == k + [s[n]];
      }
    }
  }

  /** argv in the middle of a scan: the options seen, with the skipped block after the first a of them. */
  ghost function Arranged<T>(before: seq<T>, opts: seq<T>, skipped: seq<T>, a: nat, rest: seq<T>): (r: seq<T>)
    requires a <= |opts|
  {
    before + opts[..a] + skipped + opts[a..] + rest
  }

  lemma ArrangedConsume<T>(before: seq<T>, opts: seq<T>, skipped: seq<T>, a: nat, rest: seq<T>, n: nat)
    requires a <= |opts| && n <= |rest|
    ensures Arranged(before, opts, skipped, a, rest) == Arranged(before, opts + rest[..n], skipped, a, rest[n..])
  {
    assert (opts + rest[..n])[..a] == opts[..a];
    assert (opts + rest[..n])[a..] == opts[a..] + rest[..n];
    assert rest == rest[..n] + rest[n..];
  }

  lemma ArrangedSkip<T>(before: seq<T>, opts: seq<T>, skipped: seq<T>, a: nat, rest: seq<T>)
    requires a <= |opts| && 0 < |rest| && (skipped == [] || a == |opts|)
    ensures Arranged(before, opts, skipped, a, rest)
         == Arranged(before, opts, skipped + [rest[0]], |opts|, rest[1..])
  {
    assert opts[..a] + opts[a..] == opts && opts[..|opts|] == opts && opts[|opts|..] == [];
    assert rest == [rest[0]] + rest[1..];
  }

  lemma ArrangedNone<T>(before: seq<T>, opts: seq<T>, a: nat, rest: seq<T>)
    requires a <= |opts|
    ensures Arranged(before, opts, [], a, rest) == Arranged(before, opts, [], |opts|, rest)
  {
    assert opts[..a] + opts[a..] == opts[..|opts|] + opts[|opts|..];
  }

  lemma Slices<T>(s: seq<T>, i: nat, j: nat, k: nat)
    requires i <= j <= k <= |s|
    ensures s[i..j] + s[j..k] == s[i..k] && s[j..][..k - j] == s[j..k] && s[j..][k - j..] == s[k..]
  {
  }

  lemma Parts<T>(s: seq<T>, a: seq<T>, b: seq<T>, c: seq<T>, d: seq<T>)
    requires s == a + b + c + d
    ensures s[..|a|] == a && s[|a|..|a| + |b|] == b
    ensures s[|a| + |b|..|a| + |b| + |c|] == c && s[|a| + |b| + |c|..] == d
  {
  }

  lemma MultisetSplit<T>(s: seq<T>, i: nat)
    requires i <= |s|
    ensures multiset(s) == multiset(s[..i]) + multiset(s[i..])
  {
    assert s == s[..i] + s[i..];
  }

  lemma MultisetSplit3<T>(s: seq<T>, i: nat, j: nat)
    requires i <= j <= |s|
    ensures multiset(s) == multiset(s[..i]) + multiset(s[i..j]) + multiset(s[j..])
  {
    MultisetSplit(s, j);
    MultisetSplit(s[..j], i);
    assert s[..j][..i] == s[..i] && s[..j][i..] == s[i..j];
  }

  lemma ArrangedMultiset<T>(before: seq<T>, opts: seq<T>, skipped: seq<T>, a: nat, rest: seq<T>)
    requires a <= |opts|
    ensures multiset(Arranged(before, opts, skipped, a, rest))
         == multiset(before) + (multiset(opts) + multiset(skipped)) + multiset(rest)
  {
    MultisetSplit(opts, a);
    assert multiset(before + opts[..a] + skipped + opts[a..])
        == multiset(before) + multiset(opts[..a]) + multiset(skipped) + multiset(opts[a..]);
  }

  lemma ArrangedExchange<T>(before: seq<T>, opts: seq<T>, skipped: seq<T>, a: nat, rest: seq<T>,
                            s: seq<T>, i: nat, j: nat, k: nat)
    requires a <= |opts| && s == Arranged(before, opts, skipped, a, rest)
    requires i == |before| + a && j == i + |skipped| && k == |before| + |opts| + |skipped|
    ensures k <= |s| && Exchange(s, i, j, k) == Arranged(before, opts, skipped, |opts|, rest)
  {
    assert s[..i] == before + opts[..a];
    assert s[i..j] == skipped;
    assert s[j..k] == opts[a..];
    assert s[k..] == rest;
    assert opts[..a] + opts[a..] == opts[..|opts|];
    assert opts[|opts|..] == [];
  }

  /** What one call reports; the C function returns -1 for the first three. */
  datatype Outcome =
    | EndOfArgs          // every entry has been scanned
    | Terminator         // "--" was found
    | FirstNonOption     // not permuting, and a non-option was found
    | InOrder            // non-options are arguments of the option 1
    | Recognised         // an option (or part of a cluster) was handled
    | AtOption           // scanning stopped in front of an option

  /** How the option recogniser moves: entries consumed, and what is left of the current cluster. */
  datatype Move = Move(consumed: nat, place: string)

  /**
    What the recogniser of short and long options guarantees: it either stays
    inside a cluster of short options, or it finishes the current entry and
    consumes it, with or without a following argument.
  */
  ghost predicate IsRecogniser(f: (string, seq<string>) -> Move) {
    forall place, rest :: place != [] && rest != [] ==> Moves(f(place, rest), place, rest)
  }

  ghost predicate Moves(m: Move, place: string, rest: seq<string>) {
    || (m.place == [] && 1 <= m.consumed <= |rest|)
    || (0 < |m.place| < |place| && m.consumed == 0)
  }

  /** An entry that does not start with '-', or a lone "-" that is not an option letter. */
  predicate NonOption(arg: string, options: string) {
    arg == "" || arg[0] != '-' || (|arg| == 1 && '-' !in options)
  }

  /** An entry that getopt takes for an option: a '-' and more, or a lone "-" where that is an option letter. */
  predicate LooksLikeOption(arg: string, options: string) {
    (|arg| >= 2 && arg[0] == '-') || (arg == "-" && '-' in options)
  }

  lemma NonOptionMeans(arg: string, options: string)
    ensures NonOption(arg, options) <==> !LooksLikeOption(arg, options)
  {
    assert |arg| == 1 && arg[0] == '-' ==> arg == "-";
  }

  /** How many entries an option takes, given what is left of its letters. */
  ghost function Taken(f: (string, seq<string>) -> Move, place: string, rest: seq<string>): (n: nat)
    requires IsRecogniser(f) && place != [] && rest != []
    ensures 1 <= n <= |rest|
    decreases |place|
  {
    var m := f(place, rest);
    assert Moves(m, place, rest);
    if m.place == [] then m.consumed else Taken(f, m.place, rest)
  }

  /** The letters of an option, without the leading '-' unless there is nothing else. */
  ghost function LettersOf(arg: string): (place: string)
    requires arg != ""
    ensures place != ""
  {
    if |arg| == 1 then arg else arg[1..]
  }

  /** How a permuting run marks the entries from here on: options with what they take, up to "--", and the others. */
  ghost function Marked(f: (string, seq<string>) -> Move, options: string, rest: seq<string>): (marks: seq<bool>)
    requires IsRecogniser(f)
    ensures |marks| <= |rest|
    decreases |rest|
  {
    if rest == [] then []
    else if !LooksLikeOption(rest[0], options) then [false] + Marked(f, options, rest[1..])
    else if rest[0] == "--" then [true]
    else
      var n := Taken(f, LettersOf(rest[0]), rest);
      Marks(n, true) + Marked(f, options, rest[n..])
  }

  /** The same in the middle of an option, of which place is left. */
  ghost function MarkedFrom(f: (string, seq<string>) -> Move, options: string, place: string, rest: seq<string>):
    (marks: seq<bool>)
    requires IsRecogniser(f) && (place == "" || rest != [])
  {
    if place == "" then Marked(f, options, rest)
    else Marks(Taken(f, place, rest), true) + Marked(f, options, rest[Taken(f, place, rest)..])
  }

  /** The scan so far: the original entries [start, start + |marks|), each marked as option or not. */
  datatype History = History(original: seq<string>, start: nat, marks: seq<bool>) {
    ghost predicate Bounded() {
      start + |marks| <= |original|
    }

    /** How far the original entries have been scanned. */
    ghost function End(): (r: nat) {
      start + |marks|
    }

    /** The entries consumed as options, in the order they were given. */
    ghost function Opts(): (r: seq<string>)
      requires Bounded()
    {
      Pick(original[start..End()], marks, true)
    }

    /** The entries skipped as non-options, in the order they were given. */
    ghost function Skipped(): (r: seq<string>)
      requires Bounded()
    {
      Pick(original[start..End()], marks, false)
    }

    /** argv when the first a options precede the skipped block. */
    ghost function Layout(a: nat): (r: seq<string>)
      requires Bounded() && a <= |Opts()|
    {
      Arranged(original[..start], Opts(), Skipped(), a, original[End()..])
    }

    /** A later stage of the scan: more entries marked, those marked as skipped being non-options. */
    ghost predicate Extends(earlier: History, options: string) {
      && original == earlier.original
      && start == earlier.start
      && earlier.marks <= marks
      && Bounded()
      && forall i: nat :: |earlier.marks| <= i < |marks| && !marks[i] ==> NonOption(original[start + i], options)
    }

    lemma SkipExtends(earlier: History, options: string)
      requires Extends(earlier, options) && End() < |original| && NonOption(original[End()], options)
      ensures Skip().Extends(earlier, options)
    {
    }

    lemma ExtendsTrans(middle: History, earlier: History, options: string)
      requires Extends(middle, options) && middle.Extends(earlier, options)
      ensures Extends(earlier, options)
    {
      forall i: nat | |earlier.marks| <= i < |marks| && !marks[i] ensures NonOption(original[start + i], options) {
        if i < |middle.marks| {
          assert !middle.marks[i];
        }
      }
    }

    lemma ConsumeExtends(earlier: History, options: string, n: nat)
      requires Extends(earlier, options) && End() + n <= |original|
      ensures Consume(n).Extends(earlier, options)
    {
    }

    ghost function Skip(): (h: History) {
      this.(marks := marks + [false])
    }

    ghost function Consume(n: nat): (h: History) {
      this.(marks := marks + Marks(n, true))
    }

    lemma SkipPicks()
      requires Bounded() && End() < |original|
      ensures Skip().Bounded() && Skip().Opts() == Opts() && Skip().Skipped() == Skipped() + [original[End()]]
    {
      var e := End();
      PickSnoc(original[start..e], marks, original[e], false, true);
      PickSnoc(original[start..e], marks, original[e], false, false);
      Slices(original, start, e, e + 1);
      assert original[e..e + 1] == [original[e]];
      assert Opts() + [] == Opts();
    }

    lemma SkipLayout(a: nat)
      requires Bounded() && End() < |original| && a <= |Opts()| && (Skipped() == [] || a == |Opts()|)
      ensures Skip().Bounded() && Skip().Opts() == Opts() && Skip().Skipped() == Skipped() + [original[End()]]
      ensures Skip().Layout(|Opts()|) == Layout(a)
    {
      var e := End();
      SkipPicks();
      ArrangedSkip(original[..start], Opts(), Skipped(), a, original[e..]);
      assert original[e..][0] == original[e] && original[e..][1..] == original[e + 1..];
    }

    lemma ConsumePicks(n: nat)
      requires Bounded() && End() + n <= |original|
      ensures Consume(n).Bounded() && Consume(n).Opts() == Opts() + original[End()..End() + n]
      ensures Consume(n).Skipped() == Skipped()
    {
      var e := End();
      PickAppend(original[start..e], marks, original[e..e + n]);
      Slices(original, start, e, e + n);
    }

    lemma ConsumeLayout(a: nat, n: nat)
      requires Bounded() && End() + n <= |original| && a <= |Opts()|
      ensures Consume(n).Bounded() && Consume(n).Opts() == Opts() + original[End()..End() + n]
      ensures Consume(n).Skipped() == Skipped() && Consume(n).Layout(a) == Layout(a)
    {
      var e := End();
      ConsumePicks(n);
      Slices(original, start, e, e + n);
      ArrangedConsume(original[..start], Opts(), Skipped(), a, original[e..], n);
    }

    /** With nothing skipped, it does not matter where the skipped block would be. */
    lemma LayoutNone(a: nat, b: nat)
      requires Bounded() && a <= |Opts()| && b <= |Opts()| && Skipped() == []
      ensures Layout(a) == Layout(b)
    {
      ArrangedNone(original[..start], Opts(), a, original[End()..]);
      ArrangedNone(original[..start], Opts(), b, original[End()..]);
    }

    lemma LayoutLength(a: nat)
      requires Bounded() && a <= |Opts()|
      ensures |Opts()| + |Skipped()| == |marks| && |Layout(a)| == |original|
    {
      PickMultiset(original[start..End()], marks);
      assert |multiset(Opts())| + |multiset(Skipped())| == |multiset(original[start..End()])|;
    }

    /** The entry about to be scanned is still where it was. */
    lemma LayoutRest(a: nat, i: nat)
      requires Bounded() && a <= |Opts()| && End() <= i < |original|
      ensures |Layout(a)| == |original| && Layout(a)[i] == original[i]
    {
      LayoutLength(a);
      var rest := original[End()..];
      assert Layout(a)[i] == rest[i - End()];
    }

    lemma ExchangeLayout(a: nat)
      requires Bounded() && a <= |Opts()|
      ensures start + a + |Skipped()| <= End() <= |Layout(a)|
      ensures start + |Opts()| + |Skipped()| == End()
      ensures Exchange(Layout(a), start + a, start + a + |Skipped()|, End()) == Layout(|Opts()|)
    {
      LayoutLength(a);
      ArrangedExchange(original[..start], Opts(), Skipped(), a, original[End()..],
                       Layout(a), start + a, start + a + |Skipped()|, End());
    }

    /** However far the skipped block has moved, argv is a permutation of the original. */
    lemma LayoutPermutes(a: nat)
      requires Bounded() && a <= |Opts()|
      ensures multiset(Layout(a)) == multiset(original)
    {
      var e := End();
      PickMultiset(original[start..e], marks);
      ArrangedMultiset(original[..start], Opts(), Skipped(), a, original[e..]);
      MultisetSplit3(original, start, e);
    }
  }

  /** getopt's index variables, as values. */
  datatype Cursor = Cursor(optind: nat, nonoptStart: int, nonoptEnd: int) {

    /** How many options precede the skipped block. */
    ghost function Ahead(h: History): (r: int)
      requires h.Bounded()
    {
      if nonoptStart == -1 then |h.Opts()| else nonoptStart - h.start
    }

    /** Mid-scan: the indices say where the skipped block is, and argv is laid out accordingly. */
    ghost predicate Describes(h: History, argv: seq<string>) {
      && h.Bounded()
      && optind == h.End()
      && 0 <= Ahead(h) <= |h.Opts()|
      && argv == h.Layout(Ahead(h))
      && (nonoptStart == -1 <==> h.Skipped() == [])
      && (nonoptStart == -1 ==> nonoptEnd == -1)
      && (nonoptEnd == -1 ==> Ahead(h) == |h.Opts()|)
      && (nonoptEnd != -1 ==> nonoptEnd == nonoptStart + |h.Skipped()|)
    }

    /** Entries between the skipped block and the cursor: what makes an exchange necessary. */
    ghost predicate Pending(h: History)
      requires h.Bounded()
    {
      nonoptEnd != -1 ==> Ahead(h) < |h.Opts()|
    }

    lemma Skips(h: History, argv: seq<string>)
      requires Describes(h, argv) && nonoptEnd == -1 && optind < |h.original|
      ensures Cursor(optind + 1, if nonoptStart == -1 then optind else nonoptStart, -1).Describes(h.Skip(), argv)
    {
      h.SkipLayout(|h.Opts()|);
      h.LayoutLength(|h.Opts()|);
    }

    lemma Exchanges(h: History, argv: seq<string>)
      requires Describes(h, argv) && nonoptEnd != -1 && Pending(h)
      ensures 0 <= nonoptStart < nonoptEnd < optind <= |argv|
      ensures Cursor(optind, optind - (nonoptEnd - nonoptStart), -1)
                .Describes(h, Exchange(argv, nonoptStart, nonoptEnd, optind))
    {
      var a, o, k := Ahead(h), |h.Opts()|, |h.Skipped()|;
      h.ExchangeLayout(a);
      assert nonoptStart == h.start + a && nonoptEnd == h.start + a + k && optind == h.End();
      assert Exchange(argv, nonoptStart, nonoptEnd, optind) == h.Layout(o);
      MovedBack(h, o, k);
      assert Cursor(optind, optind - (nonoptEnd - nonoptStart), -1) == Cursor(h.End(), h.End() - k, -1);
    }

    /** With the skipped block behind all options. */
    static lemma MovedBack(h: History, o: nat, k: nat)
      requires h.Bounded() && o == |h.Opts()| && k == |h.Skipped()| && k > 0 && h.start + o + k == h.End()
      ensures Cursor(h.End(), h.End() - k, -1).Describes(h, h.Layout(o))
    {
      var c := Cursor(h.End(), h.End() - k, -1);
      assert c.Ahead(h) == o;
    }

    lemma ConsumesFirst(h: History, argv: seq<string>, n: nat)
      requires Describes(h, argv) && optind + n <= |h.original| && nonoptStart == -1
      ensures Cursor(optind + n, -1, -1).Describes(h.Consume(n), argv)
    {
      h.ConsumeLayout(|h.Opts()|, n);
      var h2 := h.Consume(n);
      h2.LayoutNone(|h.Opts()|, |h2.Opts()|);
    }

    lemma ConsumesBehind(h: History, argv: seq<string>, n: nat)
      requires Describes(h, argv) && optind + n <= |h.original| && nonoptStart != -1 && nonoptEnd != -1
      ensures Cursor(optind + n, nonoptStart, nonoptEnd).Describes(h.Consume(n), argv)
      ensures n > 0 ==> Cursor(optind + n, nonoptStart, nonoptEnd).Pending(h.Consume(n))
    {
      h.ConsumeLayout(Ahead(h), n);
    }

    lemma Consumes(h: History, argv: seq<string>, n: nat)
      requires Describes(h, argv) && optind + n <= |h.original|
      requires nonoptStart == -1 || nonoptEnd != -1
      ensures Cursor(optind + n, nonoptStart, nonoptEnd).Describes(h.Consume(n), argv)
      ensures n > 0 ==> Cursor(optind + n, nonoptStart, nonoptEnd).Pending(h.Consume(n))
      ensures n == 0 ==> h.Consume(n) == h
    {
      assert n == 0 ==> h.Consume(n).marks == h.marks;
      if nonoptStart == -1 {
        ConsumesFirst(h, argv, n);
      } else {
        ConsumesBehind(h, argv, n);
      }
    }

    /** Marking where the options after the skipped block begin changes nothing else. */
    lemma SetsEnd(h: History, argv: seq<string>)
      requires Describes(h, argv) && nonoptStart != -1 && nonoptEnd == -1
      ensures this.(nonoptEnd := optind).Describes(h, argv)
    {
      h.LayoutLength(|h.Opts()|);
    }

    /** What is still to be scanned has not been moved. */
    lemma Unmoved(h: History, argv: seq<string>)
      requires Describes(h, argv)
      ensures optind <= |argv| && argv[optind..] == h.original[optind..]
    {
      h.LayoutLength(Ahead(h));
      forall i: nat | optind <= i < |argv| ensures argv[i] == h.original[i] {
        Current(h, argv, i);
      }
    }

    lemma Current(h: History, argv: seq<string>, i: nat)
      requires Describes(h, argv) && optind <= i < |h.original|
      ensures |argv| == |h.original| && argv[i] == h.original[i]
    {
      h.LayoutRest(Ahead(h), i);
    }
  }

  /** The marks made so far and those still to come. */
  ghost function Plan(h: History, f: (string, seq<string>) -> Move, options: string, place: string): (marks: seq<bool>)
    requires IsRecogniser(f) && h.Bounded() && (place == "" || h.End() < |h.original|)
  {
    h.marks + MarkedFrom(f, options, place, h.original[h.End()..])
  }

  /** The marks, with those to come if the scan goes on, are as planned. */
  ghost predicate Planned(goesOn: bool, h: History, f: (string, seq<string>) -> Move, options: string, place: string,
                          plan: seq<bool>)
  {
    if goesOn then
      IsRecogniser(f) && h.Bounded() && (place == "" || h.End() < |h.original|) && Plan(h, f, options, place) == plan
    else h.marks == plan
  }

  lemma PlanEnd(h: History, f: (string, seq<string>) -> Move, options: string)
    requires IsRecogniser(f) && h.Bounded() && h.End() == |h.original|
    ensures Plan(h, f, options, "") == h.marks
  {
    assert h.original[h.End()..] == [];
  }

  lemma PlanSkip(h: History, f: (string, seq<string>) -> Move, options: string)
    requires IsRecogniser(f) && h.Bounded() && h.End() < |h.original|
    requires NonOption(h.original[h.End()], options)
    ensures h.Skip().Bounded() && Plan(h.Skip(), f, options, "") == Plan(h, f, options, "")
  {
    var rest := h.original[h.End()..];
    NonOptionMeans(rest[0], options);
    assert rest[1..] == h.original[h.End() + 1..];
    assert h.marks + ([false] + Marked(f, options, rest[1..])) == h.marks + [false] + Marked(f, options, rest[1..]);
  }

  lemma PlanTerminator(h: History, f: (string, seq<string>) -> Move, options: string)
    requires IsRecogniser(f) && h.Bounded() && h.End() < |h.original| && h.original[h.End()] == "--"
    ensures Plan(h, f, options, "") == h.Consume(1).marks
  {
    assert h.original[h.End()..][0] == "--";
    assert Marks(1, true) == [true];
  }

  lemma PlanEnter(h: History, f: (string, seq<string>) -> Move, options: string)
    requires IsRecogniser(f) && h.Bounded() && h.End() < |h.original|
    requires !NonOption(h.original[h.End()], options) && h.original[h.End()] != "--"
    ensures Plan(h, f, options, LettersOf(h.original[h.End()])) == Plan(h, f, options, "")
  {
    NonOptionMeans(h.original[h.End()], options);
    assert h.original[h.End()..][0] == h.original[h.End()];
  }

  /** What becomes of the plan at an entry that is no non-option. */
  lemma MeetPlan(h: History, f: (string, seq<string>) -> Move, options: string)
    requires IsRecogniser(f) && h.Bounded() && h.End() < |h.original| && !NonOption(h.original[h.End()], options)
    ensures Plan(h, f, options, "") ==
            if h.original[h.End()] == "--" then h.Consume(1).marks
            else Plan(h, f, options, LettersOf(h.original[h.End()]))
  {
    if h.original[h.End()] == "--" {
      PlanTerminator(h, f, options);
    } else {
      PlanEnter(h, f, options);
    }
  }

  lemma TakenStep(f: (string, seq<string>) -> Move, place: string, rest: seq<string>, m: Move)
    requires IsRecogniser(f) && place != [] && rest != [] && m == f(place, rest)
    ensures if m.place == [] then 1 <= m.consumed <= |rest| && Taken(f, place, rest) == m.consumed
            else Taken(f, place, rest) == Taken(f, m.place, rest)
  {
    assert Moves(m, place, rest);
  }

  lemma MarkedStep(f: (string, seq<string>) -> Move, options: string, place: string, rest: seq<string>, m: Move)
    requires IsRecogniser(f) && place != [] && rest != [] && m == f(place, rest)
    ensures if m.place == [] then
              1 <= m.consumed <= |rest| &&
              MarkedFrom(f, options, place, rest)
              == Marks(m.consumed, true) + MarkedFrom(f, options, "", rest[m.consumed..])
            else MarkedFrom(f, options, place, rest) == MarkedFrom(f, options, m.place, rest)
  {
    TakenStep(f, place, rest, m);
  }

  lemma PlanMove(h: History, f: (string, seq<string>) -> Move, options: string, place: string, m: Move)
    requires IsRecogniser(f) && h.Bounded() && h.End() < |h.original| && place != ""
    requires m == f(place, h.original[h.End()..])
    ensures if m.place == "" then
              h.Consume(m.consumed).Bounded() &&
              Plan(h.Consume(m.consumed), f, options, "") == Plan(h, f, options, place)
            else Plan(h, f, options, m.place) == Plan(h, f, options, place)
  {
    var rest, n := h.original[h.End()..], m.consumed;
    MarkedStep(f, options, place, rest, m);
    if m.place == "" {
      assert rest[n..] == h.original[h.End() + n..];
      Appended(h.marks, Marks(n, true), MarkedFrom(f, options, "", rest[n..]));
    }
  }

  lemma Appended<T>(a: seq<T>, b: seq<T>, c: seq<T>)
    ensures a + (b + c) == a + b + c
  {
  }

  /** After the scan: options first, then the skipped entries, then whatever follows "--". */
  ghost predicate Finished(h: History, argv: seq<string>, optind: nat) {
    && h.Bounded()
    && argv == h.original[..h.start] + h.Opts() + h.Skipped() + h.original[h.End()..]
    && optind == h.start + |h.Opts()|
  }

  lemma FinishedLayout(h: History)
    requires h.Bounded()
    ensures Finished(h, h.Layout(|h.Opts()|), h.start + |h.Opts()|)
  {
    assert h.Opts()[..|h.Opts()|] == h.Opts() && h.Opts()[|h.Opts()|..] == [];
  }

  /** getopt's static variables and the argument vector they index. */
  class Scanner {
    const argv: array<string>
    const options: string
    const permute: bool
    const allArgs: bool
    const recognise: (string, seq<string>) -> Move
    var optind: nat
    var nonoptStart: int
    var nonoptEnd: int
    var place: string
    ghost var h: History

    ghost function At(): (c: Cursor)
      reads this
    {
      Cursor(optind, nonoptStart, nonoptEnd)
    }

    /** Mid-scan: between two entries, or inside a cluster of short options. */
    ghost predicate Valid()
      reads this, argv
    {
      && IsRecogniser(recognise)
      && |h.original| == argv.Length
      && At().Describes(h, argv[..])
      && (if place == "" then At().Pending(h) else optind < argv.Length && (nonoptStart == -1 || nonoptEnd != -1))
      && (allArgs || !permute ==> nonoptStart == -1)
    }

    /** What holds when a call has reported the end of the scan. */
    ghost predicate Over(o: Outcome)
      reads this, argv
    {
      && h.Bounded()
      && (o == EndOfArgs ==> Finished(h, argv[..], optind) && h.End() == argv.Length)
      && (o == Terminator ==> Finished(h, argv[..], optind) && h.marks != [] && h.original[h.End() - 1] == "--")
    }

    constructor (argv: array<string>, start: nat, options: string, permute: bool, allArgs: bool,
                 recognise: (string, seq<string>) -> Move)
      requires start <= argv.Length && IsRecogniser(recognise)
      ensures Valid() && h == History(argv[..], start, []) && place == ""
      ensures this.argv == argv && this.options == options && this.recognise == recognise
      ensures this.permute == permute && this.allArgs == allArgs
    {
      this.argv, this.options, this.permute, this.allArgs := argv, options, permute, allArgs;
      this.recognise := recognise;
      optind, nonoptStart, nonoptEnd, place := start, -1, -1, "";
      h := History(argv[..], start, []);
      new;
      assert h.original == h.original[..start] + h.original[start..];
    }

    /** Exchange the skipped block with the options scanned since; the caller adjusts the indices. */
    method MoveBack()
      requires |h.original| == argv.Length && At().Describes(h, argv[..]) && nonoptEnd != -1 && At().Pending(h)
      modifies argv
      ensures 0 <= nonoptStart < nonoptEnd < optind
      ensures Cursor(optind, optind - (nonoptEnd - nonoptStart), -1).Describes(h, argv[..])
    {
      At().Exchanges(h, argv[..]);
      Permute(nonoptStart, nonoptEnd, optind, argv);
    }

    /** Skip a non-option, first moving earlier skipped entries behind the options that followed them. */
    method Skip()
      requires Valid() && place == "" && optind < argv.Length && permute && !allArgs
      modifies this`optind, this`nonoptStart, this`nonoptEnd, this`h, argv
      ensures Valid() && h == old(h).Skip()
    {
      if nonoptStart == -1 {
        At().Skips(h, argv[..]);
        nonoptStart := optind;
      } else {
        if nonoptEnd != -1 {
          MoveBack();
          nonoptStart := optind - (nonoptEnd - nonoptStart);
          nonoptEnd := -1;
        }
        At().Skips(h, argv[..]);
      }
      optind := optind + 1;
      h := h.Skip();
    }

    /** The scan is over: move the skipped entries behind all options. */
    method Finish()
      requires Valid() && place == ""
      modifies this`optind, this`nonoptStart, this`nonoptEnd, argv
      ensures Finished(h, argv[..], optind) && nonoptStart == nonoptEnd == -1
    {
      FinishedLayout(h);
      h.LayoutLength(|h.Opts()|);
      if nonoptEnd != -1 {
        MoveBack();
        optind := optind - (nonoptEnd - nonoptStart);
      } else if nonoptStart != -1 {
        optind := nonoptStart;
      }
      nonoptStart, nonoptEnd := -1, -1;
    }

    /** Consume one entry: "--", or a non-option that is returned in order. */
    method Take()
      requires IsRecogniser(recognise) && |h.original| == argv.Length && At().Describes(h, argv[..])
      requires place == "" && optind < argv.Length && (nonoptStart == -1 || nonoptEnd != -1)
      requires allArgs || !permute ==> nonoptStart == -1
      modifies this`optind, this`h
      ensures Valid() && h == old(h).Consume(1)
    {
      At().Consumes(h, argv[..], 1);
      optind := optind + 1;
      h := h.Consume(1);
    }

    /** An entry starting with '-': the end of the scan if it is "--", else an option. */
    method MeetOption() returns (o: Outcome)
      requires Valid() && place == "" && optind < argv.Length && !NonOption(argv[optind], options)
      modifies this, argv
      ensures |h.original| == argv.Length && o in {AtOption, Terminator}
      ensures o == AtOption ==> Valid() && h == old(h) && optind == old(optind) && argv[optind] == old(argv[optind]) &&
                                argv[optind] != "--" && place == LettersOf(argv[optind])
      ensures o == Terminator ==> Finished(h, argv[..], optind) && h == old(h).Consume(1) && old(argv[optind]) == "--"
    {
      if nonoptStart != -1 && nonoptEnd == -1 {
        At().SetsEnd(h, argv[..]);
        nonoptEnd := optind;
      }
      if argv[optind] == "--" {
        Take();
        Finish();
        return Terminator;
      }
      place := if |argv[optind]| == 1 then argv[optind] else argv[optind][1..];
      return AtOption;
    }

    /** At an entry that begins with '-', is not "--", and is more than '-' unless that is an option letter. */
    ghost predicate AtDash()
      reads this, argv
    {
      optind < argv.Length && argv[optind] != "" && argv[optind][0] == '-' && argv[optind] != "--" &&
      (|argv[optind]| > 1 || '-' in options) && place == LettersOf(argv[optind])
    }

    /** Skip non-options up to the next option or the end. */
    method SkipNonOptions()
      requires Valid() && place == "" && permute && !allArgs
      modifies this`optind, this`nonoptStart, this`nonoptEnd, this`h, argv
      ensures Valid() && h.Extends(old(h), options)
      ensures Plan(h, recognise, options, "") == old(Plan(h, recognise, options, ""))
      ensures optind < argv.Length ==> !NonOption(argv[optind], options)
    {
      while optind < argv.Length && NonOption(argv[optind], options)
        invariant Valid() && h.Extends(old(h), options)
        invariant Plan(h, recognise, options, "") == old(Plan(h, recognise, options, ""))
        decreases argv.Length - optind
      {
        At().Current(h, argv[..], optind);
        h.SkipExtends(old(h), options);
        PlanSkip(h, recognise, options);
        Skip();
      }
    }

    /** What is left to do at the next option, at the end, or at a non-option that is not skipped. */
    method StopHere() returns (o: Outcome)
      requires Valid() && place == ""
      requires optind < argv.Length && NonOption(argv[optind], options) ==> allArgs || !permute
      modifies this, argv
      ensures |h.original| == argv.Length && h.Extends(old(h), options)
      ensures o == AtOption ==> Valid() && h == old(h) && AtDash()
      ensures Over(o) && o != Recognised
      ensures o == FirstNonOption ==>
                Valid() && !permute && h == old(h) && optind < argv.Length && !LooksLikeOption(argv[optind], options)
      ensures o == InOrder ==>
                Valid() && allArgs && h == old(h).Consume(1) && old(optind) < argv.Length &&
                !LooksLikeOption(old(argv[optind]), options)
      ensures permute && !allArgs ==>
                Planned(o == AtOption, h, recognise, options, place, old(Plan(h, recognise, options, "")))
    {
      if optind >= argv.Length {
        PlanEnd(h, recognise, options);
        Finish();
        return EndOfArgs;
      }
      At().Current(h, argv[..], optind);
      NonOptionMeans(argv[optind], options);
      h.ConsumeExtends(h, options, 1);
      if !NonOption(argv[optind], options) {
        MeetPlan(h, recognise, options);
        o := MeetOption();
        assert Planned(o == AtOption, h, recognise, options, place, old(Plan(h, recognise, options, "")));
      } else if allArgs {
        Take();
        o := InOrder;
      } else {
        o := FirstNonOption;
      }
    }

    /** Advance to the next option, skipping non-options, or to the end of the scan. */
    method Scan() returns (o: Outcome)
      requires Valid() && place == ""
      modifies this, argv
      ensures |h.original| == argv.Length && h.Extends(old(h), options)
      ensures o == AtOption ==> Valid() && AtDash()
      ensures Over(o) && o != Recognised
      ensures o == FirstNonOption ==>
                Valid() && !permute && h == old(h) && optind < argv.Length && !LooksLikeOption(argv[optind], options)
      ensures o == InOrder ==>
                Valid() && allArgs && h == old(h).Consume(1) && old(optind) < argv.Length &&
                !LooksLikeOption(old(argv[optind]), options)
      ensures permute && !allArgs ==>
                Planned(o == AtOption, h, recognise, options, place, old(Plan(h, recognise, options, "")))
    {
      if permute && !allArgs {
        SkipNonOptions();
        ghost var middle := h;
        o := StopHere();
        h.ExtendsTrans(middle, old(h), options);
      } else {
        o := StopHere();
      }
    }

    /** How much scanning is left: entries, then letters of the current cluster. */
    ghost function Letters(): (n: nat)
      reads this, argv
    {
      if place != "" then |place| else if optind < argv.Length then |argv[optind]| + 1 else 0
    }

    /** Handle the option, or the letter of a cluster, that `place` is at. */
    method Recognise()
      requires Valid() && place != ""
      modifies this`optind, this`place, this`h
      ensures Valid() && h.Extends(old(h), options)
      ensures if place == "" then |h.marks| > |old(h.marks)| else h == old(h) && |place| < old(|place|)
      ensures Plan(h, recognise, options, place) == old(Plan(h, recognise, options, place))
    {
      At().Unmoved(h, argv[..]);
      var m := recognise(place, argv[optind..]);
      PlanMove(h, recognise, options, place, m);
      assert Moves(m, place, argv[optind..]);
      At().Consumes(h, argv[..], m.consumed);
      h.ConsumeExtends(h, options, m.consumed);
      optind := optind + m.consumed;
      place := m.place;
      h := h.Consume(m.consumed);
    }

    /** One call of getopt_long: scan up to the next option unless inside a cluster, then handle it. */
    method Call() returns (o: Outcome)
      requires Valid()
      modifies this, argv
      ensures |h.original| == argv.Length && h.Extends(old(h), options)
      ensures Over(o)
      ensures o == FirstNonOption ==> Valid() && !permute && h == old(h)
      ensures o == InOrder ==> Valid() && allArgs && h == old(h).Consume(1)
      ensures o == Recognised ==> Valid() && (|h.marks| > |old(h.marks)| || Letters() < old(Letters()))
      ensures o != AtOption
      ensures permute && !allArgs ==>
                Planned(o == Recognised, h, recognise, options, place, old(Plan(h, recognise, options, place)))
    {
      if place == "" {
        o := Scan();
        if o != AtOption {
          return o;
        }
      }
      ghost var middle := h;
      Recognise();
      h.ExtendsTrans(middle, old(h), options);
      return Recognised;
    }

    /** Call getopt_long until it reports the end. */
    method Run() returns (o: Outcome)
      requires Valid()
      modifies this, argv
      ensures |h.original| == argv.Length && h.Extends(old(h), options)
      ensures permute && !allArgs ==> o == EndOfArgs || o == Terminator
      ensures Over(o)
      ensures permute && !allArgs ==> h.marks == old(Plan(h, recognise, options, place))
    {
      while true
        invariant Valid() && h.Extends(old(h), options)
        invariant permute && !allArgs ==>
                    Plan(h, recognise, options, place) == old(Plan(h, recognise, options, place))
        decreases |h.original| - |h.marks|, Letters()
      {
        ghost var before := h;
        o := Call();
        h.ExtendsTrans(before, old(h), options);
        if o != Recognised && o != InOrder {
          return o;
        }
      }
    }
  }

  /** argv as a permuting run leaves it: the options with what they take, then the others, then what follows "--". */
  ghost function Permuted(argv: seq<string>, start: nat, marks: seq<bool>): (r: seq<string>)
    requires start + |marks| <= |argv|
  {
    var seen := argv[start..start + |marks|];
    argv[..start] + Pick(seen, marks, true) + Pick(seen, marks, false) + argv[start + |marks|..]
  }

  ghost predicate RanOver(given: seq<string>, start: nat, marks: seq<bool>, argv: seq<string>, optind: nat) {
    start + |marks| <= |given| && argv == Permuted(given, start, marks) &&
    optind == start + |Pick(given[start..start + |marks|], marks, true)|
  }

  lemma FinishedRan(h: History, argv: seq<string>, optind: nat)
    requires Finished(h, argv, optind)
    ensures RanOver(h.original, h.start, h.marks, argv, optind)
  {
  }

  /** All calls of getopt_long on one argument vector, permuting. */
  method PermutingRun(argv: array<string>, start: nat, options: string, recognise: (string, seq<string>) -> Move)
    returns (optind: nat)
    requires start <= argv.Length && IsRecogniser(recognise)
    modifies argv
    ensures RanOver(old(argv[..]), start, Marked(recognise, options, old(argv[..])[start..]), argv[..], optind)
  {
    var scanner := new Scanner(argv, start, options, true, false, recognise);
    PlanFresh(scanner.h, recognise, options);
    var _ := scanner.Run();
    optind := scanner.optind;
    FinishedRan(scanner.h, argv[..], optind);
  }

  lemma PlanFresh(h: History, f: (string, seq<string>) -> Move, options: string)
    requires IsRecogniser(f) && h.Bounded() && h.marks == []
    ensures Plan(h, f, options, "") == Marked(f, options, h.original[h.start..])
  {
  }

  /** A finished scan has permuted argv. */
  lemma FinishedPermutes(h: History, argv: seq<string>, optind: nat)
    requires Finished(h, argv, optind)
    ensures multiset(argv) == multiset(h.original)
  {
    FinishedLayout(h);
    h.LayoutPermutes(|h.Opts()|);
  }

  /** Options come first, the skipped entries follow from optind, the rest has not moved. */
  lemma FinishedParts(h: History, argv: seq<string>, optind: nat)
    requires Finished(h, argv, optind)
    ensures optind + |h.Skipped()| == h.End() <= |argv|
    ensures argv[h.start..optind] == h.Opts() && argv[optind..h.End()] == h.Skipped()
    ensures argv[..h.start] == h.original[..h.start] && argv[h.End()..] == h.original[h.End()..]
  {
    h.LayoutLength(|h.Opts()|);
    Parts(argv, h.original[..h.start], h.Opts(), h.Skipped(), h.original[h.End()..]);
  }

  /** Only non-options have been skipped. */
  lemma SkippedAreNonOptions(h: History, options: string)
    requires h.Extends(h.(marks := []), options)
    ensures forall x :: x in h.Skipped() ==> NonOption(x, options)
  {
    PickedAre(h.original[h.start..h.End()], h.marks, options);
  }

  lemma {:induction false} PickedAre(s: seq<string>, marks: seq<bool>, options: string)
    requires |marks| == |s| && forall i: nat :: i < |s| && !marks[i] ==> NonOption(s[i], options)
    ensures forall x :: x in Pick(s, marks, false) ==> NonOption(x, options)
  {
    if s != [] {
      PickedAre(s[..|s| - 1], marks[..|s| - 1], options);
    }
  }
}
