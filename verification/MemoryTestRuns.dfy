/** The endless loop of the RAM test (qi/src/memory-test.c): it prints the running total of a 32-bit error counter
    after every series.  How many of these reports can be trusted, exactly, for every power of two of memory. */
module MemoryTestRuns {
  import opened Arithmetic
  import opened BitVectors
  import opened MemoryTest

  // ---------------------------------------------------------------- the loop

  /** The loop of `__memory_test` up to series `n`; `reports` is what it has printed.  Every series counts the same
      errors, since what the cells hold before it does not matter. */
  method Loop(ram: Ram, length: nat, n: nat) returns (reports: seq<int>)
    requires ram.Valid() && length > 0 && Covers(ram.line, length) && ram.base + 4 * |ram.line| < TWO32
    modifies ram.cells
    ensures |reports| == n
    ensures forall k :: 0 <= k < n ==>
              reports[k] == Int32((k + 1) * SeriesErrors(ram.base, ram.line, ram.faults, length))
  {
    hide Int32, SeriesErrors;
    ghost var each := SeriesErrors(ram.base, ram.line, ram.faults, length);
    var errors, series := 0, 0;
    reports := [];
    NothingYet(each);
    while series < n
      invariant 0 <= series <= n && |reports| == series && errors == Int32(series * each)
      invariant forall k :: 0 <= k < series ==> reports[k] == Int32((k + 1) * each)
    {
      OneMoreSeries(series, each);
      errors := Series(ram, length, errors);
      reports := reports + [errors];
      series := series + 1;
    }
  }

  lemma NothingYet(each: nat)
    ensures Int32(0 * each) == 0
  {
  }

  lemma OneMoreSeries(k: nat, each: nat)
    ensures Int32(Int32(k * each)) == Int32(k * each)
    ensures Int32(Int32(k * each) + each) == Int32((k + 1) * each)
  {
    assert (k + 1) * each == k * each + each;
    hide Int32;
    Int32Add(k * each, 0);
    Int32Add(k * each, each);
  }

  // ---------------------------------------------------------------- what can go wrong

  lemma Int32Zero(x: nat)
    ensures Int32(x) == 0 <==> x % TWO32 == 0
  {
  }

  /** A number below 2^j times one below 2^e has no room for all the factors of two of 2^(j + e - 1). */
  lemma {:induction false} NoRoom(k: nat, s: nat, j: nat, e: nat)
    requires 0 < k < Pow2(j) && 0 < s < Pow2(e)
    ensures j + e > 0 && k * s % Pow2(j + e - 1) != 0
    decreases k + s
  {
    Positive(k, j);
    Positive(s, e);
    if k % 2 == 0 {
      NoRoom(k / 2, s, j - 1, e);
      HalfProduct(k, s, j + e - 1);
    } else if s % 2 == 0 {
      NoRoom(k, s / 2, j, e - 1);
      HalfProduct(s, k, j + e - 1);
      assert s * k == k * s && s / 2 * k == k * (s / 2);
    } else {
      OddProduct(k, s, Pow2(j + e - 2));
    }
  }

  lemma Positive(k: nat, j: nat)
    requires 0 < k < Pow2(j)
    ensures j > 0
  {
  }

  /** Halving an even factor halves the product, and with it the power of two to divide by. */
  lemma HalfProduct(k: nat, s: nat, e: nat)
    requires k % 2 == 0 && e > 0 && k / 2 * s % Pow2(e - 1) != 0
    ensures k * s % Pow2(e) != 0
  {
    var h, m := k / 2 * s, Pow2(e - 1);
    assert k == 2 * (k / 2);
    assert k * s == 2 * h by { Associates(k / 2, s); }
    DivDiv(2 * h, m);
    assert 2 * h / 2 == h;
  }

  lemma Associates(a: nat, b: nat)
    ensures 2 * a * b == 2 * (a * b)
  {
  }

  lemma OddProduct(k: nat, s: nat, m: nat)
    requires k % 2 == 1 && s % 2 == 1 && m > 0
    ensures k * s % (2 * m) != 0
  {
    OddTimesOdd(k / 2, s);
    assert k == 2 * (k / 2) + 1;
    DivDiv(k * s, m);
  }

  lemma OddTimesOdd(a: nat, s: nat)
    requires s % 2 == 1
    ensures (2 * a + 1) * s % 2 == 1
  {
    assert (2 * a + 1) * s == 2 * (a * s) + s;
  }

  /** The largest power of two that a series can count, as an exponent, over 2^m words; counts of 2^32 and more
      are as bad as 2^32. */
  function Top(m: nat): nat {
    if m <= 23 then m + 5 else if m <= 25 then m + 6 else 32
  }

  lemma {:induction false} PowerSum(m: nat, n: nat)
    ensures Pow2(m + n) == Pow2(m) * Pow2(n)
  {
    if n > 0 {
      PowerSum(m, n - 1);
      Associates(Pow2(m), Pow2(n - 1));
      assert m + n - 1 == m + (n - 1);
      assert Pow2(m) * (2 * Pow2(n - 1)) == 2 * Pow2(m) * Pow2(n - 1);
    }
  }

  lemma PowersListed()
    ensures Pow2(5) == 32 && Pow2(6) == 64 && Pow2(7) == 128 && Pow2(8) == 256 && Pow2(9) == 512 && Pow2(10) == 1024
    ensures Pow2(11) == 2048 && Pow2(12) == 4096 && Pow2(13) == 8192 && Pow2(14) == 16384 && Pow2(15) == 32768
    ensures Pow2(16) == 0x1_0000 && Pow2(17) == 0x2_0000 && Pow2(18) == 0x4_0000 && Pow2(19) == 0x8_0000
    ensures Pow2(20) == 0x10_0000 && Pow2(21) == 0x20_0000 && Pow2(22) == 0x40_0000 && Pow2(23) == 0x80_0000
    ensures Pow2(24) == 0x100_0000 && Pow2(25) == 0x200_0000 && Pow2(26) == 0x400_0000 && Pow2(27) == 0x800_0000
    ensures Pow2(28) == 0x1000_0000 && Pow2(29) == 0x2000_0000 && Pow2(30) == 0x4000_0000 && Pow2(31) == 0x8000_0000
    ensures Pow2(32) == TWO32
  {
    assert Pow2(4) == 16;
    assert Pow2(8) == 256;
    assert Pow2(12) == 4096;
    assert Pow2(16) == 0x1_0000;
    assert Pow2(20) == 0x10_0000;
    assert Pow2(24) == 0x100_0000;
    assert Pow2(28) == 0x1000_0000;
    assert Pow2(30) == 0x4000_0000;
  }

  lemma Times(a: nat, b: nat, n: nat)
    requires a < b && n > 0
    ensures a * n < b * n
  {
  }

  /** What a series counts stays below twice that power. */
  lemma CountBelow(base: nat, line: seq<nat>, faults: seq<Fault>, m: nat)
    requires Fits(line, faults) && |line| == Pow2(m) && m <= 25
    ensures SeriesErrors(base, line, faults) < Pow2(Top(m) + 1)
  {
    hide SeriesErrors, Pow2, TrailingZeros;
    PowerOfTwoLength(m);
    SeriesBound(base, line, faults);
    PowersListed();
    if m <= 23 {
      Times(40 + m, 64, Pow2(m));
      PowerSum(m, 6);
      assert Top(m) + 1 == m + 6;
    } else {
      Times(40 + m, 128, Pow2(m));
      PowerSum(m, 7);
      assert Top(m) + 1 == m + 7;
    }
    assert Pow2(m) * 64 == 64 * Pow2(m) && Pow2(m) * 128 == 128 * Pow2(m);
  }

  /** Report `k` is zero exactly when the memory is sound. */
  ghost predicate Right(base: nat, line: seq<nat>, faults: seq<Fault>, k: nat)
    requires Fits(line, faults) && |line| > 0
  {
    Int32(k * SeriesErrors(base, line, faults)) == 0 <==> NoStuckBits(line, faults) && NoAliases(line)
  }

  /** The first `n` reports are right. */
  ghost predicate Trusted(base: nat, line: seq<nat>, faults: seq<Fault>, n: nat)
    requires Fits(line, faults) && |line| > 0
  {
    forall k :: 1 <= k <= n ==> Right(base, line, faults, k)
  }

  lemma TimesZero(k: nat)
    ensures k * 0 == 0
  {
  }

  lemma NoneFromTop(m: nat)
    requires m <= 29
    ensures m > 25 ==> Pow2(32 - Top(m)) == 1
  {
  }

  lemma RightBelow(base: nat, line: seq<nat>, faults: seq<Fault>, m: nat, k: nat)
    requires Fits(line, faults) && |line| == Pow2(m) && m <= 29 && 1 <= k < Pow2(32 - Top(m))
    ensures Right(base, line, faults, k)
  {
    hide SeriesErrors, NoStuckBits, NoAliases, Int32;
    SeriesCleanPowerOfTwo(base, line, faults, m);
    var each := SeriesErrors(base, line, faults);
    NoneFromTop(m);
    hide Pow2;
    Int32Zero(k * each);
    if each == 0 {
      TimesZero(k);
    } else {
      CountBelow(base, line, faults, m);
      NoRoom(k, each, 32 - Top(m), Top(m) + 1);
      assert 32 - Top(m) + (Top(m) + 1) - 1 == 32;
      PowersListed();
    }
  }

  /** A bound that is easier to check: as long as all errors the passes could possibly count fit the counter. */
  lemma ReportIsVerdict(base: nat, line: seq<nat>, faults: seq<Fault>, m: nat, n: nat)
    requires Fits(line, faults) && |line| == Pow2(m) && n * ((40 + m) * |line|) < TWO32
    ensures Trusted(base, line, faults, n)
  {
    hide SeriesErrors, NoStuckBits, NoAliases, Int32, Pow2, TrailingZeros;
    SeriesCleanPowerOfTwo(base, line, faults, m);
    PowerOfTwoLength(m);
    SeriesBound(base, line, faults);
    var each := SeriesErrors(base, line, faults);
    forall k | 1 <= k <= n ensures Right(base, line, faults, k) {
      Products(k, each, n, (40 + m) * |line|);
      Int32Zero(k * each);
    }
  }

  lemma Products(k: nat, a: nat, n: nat, b: nat)
    requires 1 <= k <= n && a <= b
    ensures a <= k * a <= n * b
  {
    assert n * b == k * a + (k * (b - a) + (n - k) * b);
    assert k * a == a + (k - 1) * a;
  }

  // ---------------------------------------------------------------- errors word by word

  function Fail(v: Word, f: Fault): nat {
    if Observe(v, f) != v then 1 else 0
  }

  function PatternFails(f: Fault, patterns: seq<Word>): nat {
    if patterns == [] then 0
    else PatternFails(f, patterns[..|patterns| - 1]) + Fail(patterns[|patterns| - 1], f)
  }

  function WalkFails(f: Fault, k: nat): nat {
    if k == 0 then 0 else WalkFails(f, k - 1) + Fail(Walk(k - 1), f)
  }

  /** What pass `k` of the address test stores at address `a`. */
  function Mark(a: nat, k: nat): Word {
    if BitSet(a, k) then ALL_ONES else 0
  }

  function MarkFails(a: nat, f: Fault, k: nat): nat {
    if k == 0 then 0 else MarkFails(a, f, k - 1) + Fail(Mark(a, k - 1), f)
  }

  /** The errors of one series at a word of its own, at address `a`, with `t` address passes. */
  function WordErrors(a: nat, f: Fault, t: nat): nat {
    PatternFails(f, PATTERNS) + WalkFails(f, 32) + MarkFails(a, f, t)
  }

  function Sum(s: seq<nat>): nat {
    if s == [] then 0 else Sum(s[..|s| - 1]) + s[|s| - 1]
  }

  function Added(s: seq<nat>, u: seq<nat>): (r: seq<nat>)
    requires |s| == |u|
    ensures |r| == |s|
  {
    seq(|s|, i requires 0 <= i < |s| => s[i] + u[i])
  }

  lemma {:induction false} SumAdded(s: seq<nat>, u: seq<nat>)
    requires |s| == |u|
    ensures Sum(Added(s, u)) == Sum(s) + Sum(u)
  {
    if s != [] {
      var n := |s| - 1;
      SumAdded(s[..n], u[..n]);
      assert Added(s, u)[..n] == Added(s[..n], u[..n]);
    }
  }

  lemma {:induction false} SumSame(s: seq<nat>, v: nat)
    requires forall i :: 0 <= i < |s| ==> s[i] == v
    ensures Sum(s) == |s| * v
  {
    if s != [] {
      SumSame(s[..|s| - 1], v);
      Distribute(|s|, 1, v);
    }
  }

  lemma {:induction false} SumCat(s: seq<nat>, u: seq<nat>)
    ensures Sum(s + u) == Sum(s) + Sum(u)
  {
    if u == [] {
      assert s + u == s;
    } else {
      SumCat(s, u[..|u| - 1]);
      assert (s + u)[..|s + u| - 1] == s + u[..|u| - 1];
    }
  }

  function Fails(vals: seq<Word>, faults: seq<Fault>): (r: seq<nat>)
    requires |vals| == |faults|
    ensures |r| == |vals|
  {
    seq(|vals|, i requires 0 <= i < |vals| => Fail(vals[i], faults[i]))
  }

  /** A cell of its own still holds what was stored in it. */
  lemma DirectMismatch(faults: seq<Fault>, vals: seq<Word>, j: nat)
    requires j < |faults| == |vals|
    ensures Mismatch(Direct(|faults|), faults, vals, j) <==> Fail(vals[j], faults[j]) == 1
  {
    hide Observe, Stored;
    StoredFrom(Direct(|faults|), vals, |vals|, j);
  }

  lemma {:induction false} DirectErrors(faults: seq<Fault>, vals: seq<Word>, n: nat)
    requires n <= |faults| == |vals|
    ensures Errors(Direct(|faults|), faults, vals, n) == Sum(Fails(vals, faults)[..n])
  {
    hide Observe, Stored, Mismatch;
    if n > 0 {
      DirectErrors(faults, vals, n - 1);
      DirectMismatch(faults, vals, n - 1);
      assert Fails(vals, faults)[..n][..n - 1] == Fails(vals, faults)[..n - 1];
    }
  }

  lemma DirectPass(faults: seq<Fault>, vals: seq<Word>)
    requires |faults| == |vals|
    ensures PassErrors(Direct(|faults|), faults, vals) == Sum(Fails(vals, faults))
  {
    hide Observe, Errors;
    DirectErrors(faults, vals, |vals|);
    assert Fails(vals, faults)[..|vals|] == Fails(vals, faults);
  }

  function AllPatterns(faults: seq<Fault>, patterns: seq<Word>): (r: seq<nat>)
    ensures |r| == |faults|
  {
    seq(|faults|, i requires 0 <= i < |faults| => PatternFails(faults[i], patterns))
  }

  function AllWalks(faults: seq<Fault>, k: nat): (r: seq<nat>)
    ensures |r| == |faults|
  {
    seq(|faults|, i requires 0 <= i < |faults| => WalkFails(faults[i], k))
  }

  function AllMarks(base: nat, faults: seq<Fault>, k: nat): (r: seq<nat>)
    ensures |r| == |faults|
  {
    seq(|faults|, i requires 0 <= i < |faults| => MarkFails(base + 4 * i, faults[i], k))
  }

  function AllErrors(base: nat, faults: seq<Fault>, t: nat): (r: seq<nat>)
    ensures |r| == |faults|
  {
    seq(|faults|, i requires 0 <= i < |faults| => WordErrors(base + 4 * i, faults[i], t))
  }

  lemma {:induction false} DirectFloods(faults: seq<Fault>, patterns: seq<Word>)
    ensures FloodErrors(Direct(|faults|), faults, patterns) == Sum(AllPatterns(faults, patterns))
    decreases |patterns|
  {
    hide PassErrors, Fail;
    if patterns == [] {
      SumSame(AllPatterns(faults, patterns), 0);
    } else {
      var v, before := patterns[|patterns| - 1], patterns[..|patterns| - 1];
      DirectFloods(faults, before);
      DirectPass(faults, Flood(|faults|, v));
      SumAdded(AllPatterns(faults, before), Fails(Flood(|faults|, v), faults));
      assert AllPatterns(faults, patterns) == Added(AllPatterns(faults, before), Fails(Flood(|faults|, v), faults));
    }
  }

  lemma {:induction false} DirectWalks(faults: seq<Fault>, k: nat)
    ensures WalkErrors(Direct(|faults|), faults, k) == Sum(AllWalks(faults, k))
  {
    hide PassErrors, Fail, Walk;
    if k == 0 {
      SumSame(AllWalks(faults, k), 0);
    } else {
      var vals := Flood(|faults|, Walk(k - 1));
      DirectWalks(faults, k - 1);
      DirectPass(faults, vals);
      SumAdded(AllWalks(faults, k - 1), Fails(vals, faults));
      assert AllWalks(faults, k) == Added(AllWalks(faults, k - 1), Fails(vals, faults));
    }
  }

  lemma {:induction false} DirectMarks(base: nat, faults: seq<Fault>, k: nat)
    ensures AdsErrors(base, Direct(|faults|), faults, k) == Sum(AllMarks(base, faults, k))
  {
    hide PassErrors, Fail, BitSet, TestMask, Pow2;
    if k == 0 {
      SumSame(AllMarks(base, faults, k), 0);
    } else {
      var vals := Marked(base, |faults|, Pow2(k - 1));
      DirectMarks(base, faults, k - 1);
      DirectPass(faults, vals);
      SumAdded(AllMarks(base, faults, k - 1), Fails(vals, faults));
      forall i | 0 <= i < |faults|
        ensures AllMarks(base, faults, k)[i] == Added(AllMarks(base, faults, k - 1), Fails(vals, faults))[i]
      {
        MaskIsBit(base + 4 * i, k - 1);
      }
      assert AllMarks(base, faults, k) == Added(AllMarks(base, faults, k - 1), Fails(vals, faults));
    }
  }

  /** In memory without aliases a series counts its errors word by word. */
  lemma WordByWord(base: nat, faults: seq<Fault>)
    requires |faults| > 0
    ensures SeriesErrors(base, Direct(|faults|), faults) ==
            Sum(AllErrors(base, faults, TrailingZeros(4 * |faults|)))
  {
    hide FloodErrors, WalkErrors, AdsErrors, TrailingZeros, PatternFails, WalkFails, MarkFails, PATTERNS, Sum;
    var t := TrailingZeros(4 * |faults|);
    DirectFloods(faults, PATTERNS);
    DirectWalks(faults, 32);
    DirectMarks(base, faults, t);
    SumAdded(AllPatterns(faults, PATTERNS), AllWalks(faults, 32));
    SumAdded(Added(AllPatterns(faults, PATTERNS), AllWalks(faults, 32)), AllMarks(base, faults, t));
    assert AllErrors(base, faults, t) ==
           Added(Added(AllPatterns(faults, PATTERNS), AllWalks(faults, 32)), AllMarks(base, faults, t));
  }

  // ---------------------------------------------------------------- kinds of broken words

  lemma {:induction false} PatternsOf(f: Fault)
    ensures PatternFails(f, PATTERNS) ==
            Fail(0x55555555, f) + Fail(0xaaaaaaaa, f) + Fail(0x55aa55aa, f) +
            Fail(0xaa55aa55, f) + Fail(0x00ff00ff, f) + Fail(0xff00ff00, f)
  {
    hide Fail, PatternFails;
    Patterns();
    PatternsStart(f);
    PatternNext(f, [], 0x55555555);
    PatternNext(f, [] + [0x55555555], 0xaaaaaaaa);
    PatternNext(f, [] + [0x55555555] + [0xaaaaaaaa], 0x55aa55aa);
    PatternNext(f, [] + [0x55555555] + [0xaaaaaaaa] + [0x55aa55aa], 0xaa55aa55);
    PatternNext(f, [] + [0x55555555] + [0xaaaaaaaa] + [0x55aa55aa] + [0xaa55aa55], 0x00ff00ff);
    PatternNext(f, [] + [0x55555555] + [0xaaaaaaaa] + [0x55aa55aa] + [0xaa55aa55] + [0x00ff00ff], 0xff00ff00);
  }

  lemma PatternsStart(f: Fault)
    ensures PatternFails(f, []) == 0
  {
  }

  lemma PatternNext(f: Fault, patterns: seq<Word>, v: Word)
    ensures PatternFails(f, patterns + [v]) == PatternFails(f, patterns) + Fail(v, f)
  {
    assert (patterns + [v])[..|patterns|] == patterns;
  }

  /** A sound word counts nothing. */
  lemma {:induction false} SoundWord(a: nat, t: nat)
    ensures WordErrors(a, HEALTHY, t) == 0
  {
    hide Observe, Walk, PATTERNS, BitSet;
    HealthyCell();
    SoundPatterns(PATTERNS);
    SoundWalks(32);
    SoundMarks(a, t);
  }

  lemma SoundPatterns(patterns: seq<Word>)
    requires forall v :: Observe(v, HEALTHY) == v
    ensures PatternFails(HEALTHY, patterns) == 0
  {
    hide Observe;
  }

  lemma SoundWalks(k: nat)
    requires forall v :: Observe(v, HEALTHY) == v
    ensures WalkFails(HEALTHY, k) == 0
  {
    hide Observe, Walk;
  }

  lemma SoundMarks(a: nat, k: nat)
    requires forall v :: Observe(v, HEALTHY) == v
    ensures MarkFails(a, HEALTHY, k) == 0
  {
    hide Observe, BitSet;
  }

  /** All data lines stuck at a value that no pass uses, or at the first checkerboard. */
  const STUCK_OTHER: Fault := Fault(0xffff_fffc, 0x3)

  const STUCK_BOARD: Fault := Fault(0xaaaa_aaaa, 0x5555_5555)

  lemma StuckShows(v: Word)
    ensures Fail(v, STUCK_OTHER) == if v == 0x3 then 0 else 1
    ensures Fail(v, STUCK_BOARD) == if v == 0x5555_5555 then 0 else 1
  {
  }

  lemma WalkOther(k: nat)
    ensures Walk(k) != 0x3 && Walk(k) != 0x5555_5555
  {
    if k > 0 { TwiceIsEven(Walk(k - 1)); }
  }

  lemma TwiceIsEven(w: Word)
    ensures w << 1 != 0x3 && w << 1 != 0x5555_5555
  {
  }

  lemma {:induction false} StuckWalks(f: Fault, k: nat)
    requires f == STUCK_OTHER || f == STUCK_BOARD
    ensures WalkFails(f, k) == k
  {
    hide Fail, Walk, STUCK_OTHER, STUCK_BOARD;
    if k > 0 {
      StuckWalks(f, k - 1);
      WalkOther(k - 1);
      StuckShows(Walk(k - 1));
    }
  }

  lemma {:induction false} StuckMarks(a: nat, f: Fault, k: nat)
    requires f == STUCK_OTHER || f == STUCK_BOARD
    ensures MarkFails(a, f, k) == k
  {
    hide Fail, BitSet, STUCK_OTHER, STUCK_BOARD;
    if k > 0 {
      StuckMarks(a, f, k - 1);
      StuckShows(Mark(a, k - 1));
    }
  }

  /** The first kind of stuck word fails every pass, the second all but one. */
  lemma StuckWord(a: nat, t: nat)
    ensures WordErrors(a, STUCK_OTHER, t) == 38 + t
    ensures WordErrors(a, STUCK_BOARD, t) == 37 + t
  {
    hide Fail, WalkFails, MarkFails, PatternFails, PATTERNS, STUCK_OTHER, STUCK_BOARD;
    StuckWalks(STUCK_OTHER, 32);
    StuckWalks(STUCK_BOARD, 32);
    StuckMarks(a, STUCK_OTHER, t);
    StuckMarks(a, STUCK_BOARD, t);
    PatternsOf(STUCK_OTHER);
    PatternsOf(STUCK_BOARD);
    StuckShows(0x55555555);
    StuckShows(0xaaaaaaaa);
    StuckShows(0x55aa55aa);
    StuckShows(0xaa55aa55);
    StuckShows(0x00ff00ff);
    StuckShows(0xff00ff00);
  }

  /** Ones in the `k` low bits. */
  function Ones(k: nat): Word {
    if k == 0 then 0 else Ones(k - 1) | Walk(k - 1)
  }

  /** The `k` low data lines stuck at zero. */
  function Low(k: nat): Fault { Fault(Ones(k), 0) }

  predicate Meets(v: Word, w: Word) { v & w != 0 }

  lemma MaskOut(v: Word, w: Word)
    requires !Meets(v, w)
    ensures Observe(v, Fault(w, 0)) == v
  {
    OrNothing(v & !w);
  }

  lemma MaskedOut(v: Word, w: Word)
    requires Observe(v, Fault(w, 0)) == v
    ensures !Meets(v, w)
  {
    OrNothing(v & !w);
  }

  lemma OrNothing(v: Word)
    ensures v | 0 == v
  {
  }

  lemma LowFails(v: Word, k: nat)
    ensures Fail(v, Low(k)) == if Meets(v, Ones(k)) then 1 else 0
  {
    hide Ones, Observe, Meets;
    if !Meets(v, Ones(k)) { MaskOut(v, Ones(k)); }
    if Observe(v, Low(k)) == v { MaskedOut(v, Ones(k)); }
  }

  lemma MeetsEither(v: Word, a: Word, b: Word)
    ensures Meets(v, a | b) <==> Meets(v, a) || Meets(v, b)
  {
    AndOr(v, a, b);
    OrZero(v & a, v & b);
  }

  lemma AndOr(v: Word, a: Word, b: Word)
    ensures v & (a | b) == (v & a) | (v & b)
  {
  }

  lemma OrZero(a: Word, b: Word)
    ensures a | b == 0 <==> a == 0 && b == 0
  {
  }

  lemma AndShifted(a: Word, b: Word)
    requires !Meets(a, b)
    ensures !Meets(a << 1, b << 1)
  {
  }

  lemma OneShifted(b: Word)
    ensures !Meets(1, b << 1) && !Meets(b << 1, 1)
  {
  }

  lemma {:induction false} WalksApart(i: nat, j: nat)
    requires i != j
    ensures !Meets(Walk(i), Walk(j))
  {
    if i == 0 {
      OneShifted(Walk(j - 1));
    } else if j == 0 {
      OneShifted(Walk(i - 1));
    } else {
      WalksApart(i - 1, j - 1);
      AndShifted(Walk(i - 1), Walk(j - 1));
    }
  }

  lemma MeetsItself(v: Word)
    ensures (Meets(v, v) <==> v != 0) && !Meets(v, 0)
  {
  }

  lemma {:induction false} WalkInOnes(j: nat, k: nat)
    requires j < 32
    ensures Meets(Walk(j), Ones(k)) <==> j < k
  {
    hide Walk, Meets;
    MeetsItself(Walk(j));
    if k > 0 {
      WalkInOnes(j, k - 1);
      MeetsEither(Walk(j), Ones(k - 1), Walk(k - 1));
      WalkEnds(j);
      if j != k - 1 { WalksApart(j, k - 1); }
    }
  }

  lemma {:induction false} LowWalks(n: nat, k: nat)
    requires k <= 32
    ensures WalkFails(Low(n), k) == if k < n then k else n
  {
    hide Fail, Walk, Low, Ones, Meets;
    if k > 0 {
      LowWalks(n, k - 1);
      LowFails(Walk(k - 1), n);
      WalkInOnes(k - 1, n);
    }
  }

  /** How many of the `k` low bits of `a` are set. */
  function SetBits(a: nat, k: nat): (r: nat)
    ensures r <= k
  {
    if k == 0 then 0 else SetBits(a, k - 1) + if BitSet(a, k - 1) then 1 else 0
  }

  /** A pattern that meets the nine low bits fails with nine or more of them stuck. */
  lemma {:induction false} MeetsOnes(v: Word, k: nat)
    requires k >= 9 && Meets(v, 0x1ff)
    ensures Meets(v, Ones(k))
  {
    hide Walk, Meets;
    if k > 9 {
      MeetsOnes(v, k - 1);
      MeetsEither(v, Ones(k - 1), Walk(k - 1));
    } else {
      NineOnes();
    }
  }

  lemma NineOnes()
    ensures Ones(9) == 0x1ff
  {
    assert Walk(2) == 4;
    assert Walk(4) == 0x10;
    assert Walk(6) == 0x40;
    assert Walk(8) == 0x100;
    assert Ones(2) == 3;
    assert Ones(4) == 0xf;
    assert Ones(6) == 0x3f;
    assert Ones(8) == 0xff;
  }

  lemma LowPattern(v: Word, k: nat)
    requires k >= 9 && Meets(v, 0x1ff)
    ensures Fail(v, Low(k)) == 1
  {
    hide Fail, Low, Ones, Meets;
    LowFails(v, k);
    MeetsOnes(v, k);
  }

  lemma {:induction false} LowMarks(a: nat, n: nat, k: nat)
    requires n >= 9
    ensures MarkFails(a, Low(n), k) == SetBits(a, k)
  {
    hide Fail, Low, BitSet, Ones;
    if k > 0 {
      LowMarks(a, n, k - 1);
      LowPattern(ALL_ONES, n);
      LowFails(0, n);
    }
  }

  /** Low data lines stuck at zero fail every pattern, the walks that reach them, and the address passes that
      store ones. */
  lemma LowWord(a: nat, n: nat, t: nat)
    requires 9 <= n <= 32
    ensures WordErrors(a, Low(n), t) == 6 + n + SetBits(a, t)
  {
    hide Fail, WalkFails, MarkFails, PatternFails, PATTERNS, Low;
    LowWalks(n, 32);
    LowMarks(a, n, t);
    PatternsOf(Low(n));
    LowPattern(0x55555555, n);
    LowPattern(0xaaaaaaaa, n);
    LowPattern(0x55aa55aa, n);
    LowPattern(0xaa55aa55, n);
    LowPattern(0x00ff00ff, n);
    LowPattern(0xff00ff00, n);
  }

  // ---------------------------------------------------------------- memory that deceives

  /** Memory whose first `x` words are stuck in one way, the next `y` in the other, and the rest sound. */
  function Mixed(n: nat, x: nat, y: nat): (r: seq<Fault>)
    ensures |r| == n
    ensures forall i :: 0 <= i < n ==> r[i] == if i < x then STUCK_OTHER else if i < x + y then STUCK_BOARD else HEALTHY
  {
    seq(n, i => if i < x then STUCK_OTHER else if i < x + y then STUCK_BOARD else HEALTHY)
  }

  lemma MixedSums(base: nat, n: nat, x: nat, y: nat, t: nat)
    requires x + y <= n
    ensures Sum(AllErrors(base, Mixed(n, x, y), t)) == x * (38 + t) + y * (37 + t)
  {
    hide WordErrors, STUCK_OTHER, STUCK_BOARD, Sum;
    var s := AllErrors(base, Mixed(n, x, y), t);
    forall i | 0 <= i < n ensures s[i] == if i < x then 38 + t else if i < x + y then 37 + t else 0 {
      StuckWord(base + 4 * i, t);
      SoundWord(base + 4 * i, t);
    }
    SumSame(s[..x], 38 + t);
    SumSame(s[x..][..y], 37 + t);
    SumSame(s[x..][y..], 0);
    SumCat(s[..x], s[x..]);
    SumCat(s[x..][..y], s[x..][y..]);
    assert s[x..] == s[x..][..y] + s[x..][y..];
    assert s == s[..x] + s[x..];
  }

  /** All errors of one series on such memory. */
  lemma MixedSeries(base: nat, m: nat, x: nat, y: nat)
    requires x + y <= Pow2(m)
    ensures SeriesErrors(base, Direct(Pow2(m)), Mixed(Pow2(m), x, y)) == (39 + m) * (x + y) + x
  {
    hide SeriesErrors, TrailingZeros, Pow2, Sum, AllErrors;
    PowerOfTwoLength(m);
    PowPositive(m);
    WordByWord(base, Mixed(Pow2(m), x, y));
    MixedSums(base, Pow2(m), x, y, m + 2);
    Regroup(m, x, y);
  }

  lemma PowPositive(m: nat)
    ensures Pow2(m) > 0
  {
  }

  lemma Regroup(m: nat, x: nat, y: nat)
    ensures x * (40 + m) + y * (39 + m) == (39 + m) * (x + y) + x
  {
  }

  /** Words each of which counts exactly 32 errors, whatever their addresses. */
  function Uniform(base: nat, m: nat): (r: seq<Fault>)
    requires m <= 15
    ensures |r| == Pow2(m)
  {
    seq(Pow2(m), i requires 0 <= i => Low(26 - SetBits(base + 4 * i, m + 2)))
  }

  lemma UniformSeries(base: nat, m: nat)
    requires m <= 15
    ensures SeriesErrors(base, Direct(Pow2(m)), Uniform(base, m)) == Pow2(m) * 32
  {
    hide SeriesErrors, TrailingZeros, Pow2, Sum, WordErrors, Low, SetBits;
    PowerOfTwoLength(m);
    PowPositive(m);
    WordByWord(base, Uniform(base, m));
    forall i | 0 <= i < Pow2(m) ensures WordErrors(base + 4 * i, Uniform(base, m)[i], m + 2) == 32 {
      var bits := SetBits(base + 4 * i, m + 2);
      LowWord(base + 4 * i, 26 - bits, m + 2);
    }
    SumSame(AllErrors(base, Uniform(base, m), m + 2), 32);
  }

  /** How many words are to be stuck, and how many of them in the way that fails every pass. */
  function StuckWords(m: nat): nat {
    var q := Pow2(Top(m)) / (39 + m);
    if q <= Pow2(m) then q else Pow2(m)
  }

  function StuckOther(m: nat): int {
    Pow2(Top(m)) - (39 + m) * StuckWords(m)
  }

  lemma Divided(m: nat)
    requires 6 <= m <= 29
    ensures 0 <= StuckOther(m) <= StuckWords(m) <= Pow2(m)
  {
    hide StuckOther, StuckWords, Pow2;
    if m <= 11 { DividedTo11(m); } else if m <= 17 { DividedTo17(m); }
    else if m <= 23 { DividedTo23(m); } else { DividedTo29(m); }
  }

  lemma DividedTo11(m: nat)
    requires 6 <= m <= 11
    ensures 0 <= StuckOther(m) <= StuckWords(m) <= Pow2(m)
  {
    hide Pow2;
    PowersListed();
    assert m == 6 || m == 7 || m == 8 || m == 9 || m == 10 || m == 11;
  }

  lemma DividedTo17(m: nat)
    requires 12 <= m <= 17
    ensures 0 <= StuckOther(m) <= StuckWords(m) <= Pow2(m)
  {
    hide Pow2;
    PowersListed();
    assert m == 12 || m == 13 || m == 14 || m == 15 || m == 16 || m == 17;
  }

  lemma DividedTo23(m: nat)
    requires 18 <= m <= 23
    ensures 0 <= StuckOther(m) <= StuckWords(m) <= Pow2(m)
  {
    hide Pow2;
    PowersListed();
    assert m == 18 || m == 19 || m == 20 || m == 21 || m == 22 || m == 23;
  }

  lemma DividedTo29(m: nat)
    requires 24 <= m <= 29
    ensures 0 <= StuckOther(m) <= StuckWords(m) <= Pow2(m)
  {
    hide Pow2;
    PowersListed();
    assert m == 24 || m == 25 || m == 26 || m == 27 || m == 28 || m == 29;
  }

  /** Memory of 2^m words on which one series counts exactly the power of two. */
  function Broken(base: nat, m: nat): (r: seq<Fault>)
    requires m <= 29
    ensures |r| == Pow2(m)
  {
    if m <= 5 then Uniform(base, m)
    else
      Divided(m);
      Mixed(Pow2(m), StuckOther(m), StuckWords(m) - StuckOther(m))
  }

  lemma BrokenSeries(base: nat, m: nat)
    requires m <= 29
    ensures SeriesErrors(base, Direct(Pow2(m)), Broken(base, m)) == Pow2(Top(m))
  {
    hide SeriesErrors, Pow2, Uniform, Mixed;
    if m <= 5 {
      UniformSeries(base, m);
      PowerSum(m, 5);
      PowersListed();
    } else {
      Divided(m);
      MixedSeries(base, m, StuckOther(m), StuckWords(m) - StuckOther(m));
    }
  }

  /** Each size has a broken memory without aliases whose errors add up to a multiple of 2^32 after so many series:
      the report reads zero. */
  lemma CounterWraps(base: nat, m: nat)
    requires m <= 29
    ensures var line, faults, k := Direct(Pow2(m)), Broken(base, m), Pow2(32 - Top(m));
            Fits(line, faults) && Int32(k * SeriesErrors(base, line, faults)) == 0 && !NoStuckBits(line, faults)
  {
    hide SeriesErrors, Pow2, Broken, Int32, NoStuckBits;
    var line, faults := Direct(Pow2(m)), Broken(base, m);
    BrokenSeries(base, m);
    PowPositive(Top(m));
    SeriesCleanPowerOfTwo(base, line, faults, m);
    PowerSum(32 - Top(m), Top(m));
    assert 32 - Top(m) + Top(m) == 32;
    PowersListed();
    Int32Zero(Pow2(32));
    assert NoAliases(line);
  }

  /** Every word stuck at the first checkerboard: 128 MB count 2^31 errors in a series, so the first report is the
      smallest integer and the second is zero. */
  lemma CancelsAtTwo(base: nat)
    ensures var n := Pow2(25);
            var each := SeriesErrors(base, Direct(n), Mixed(n, 0, n));
            each == TWO31 && Int32(each) == -TWO31 && Int32(2 * each) == 0
  {
    hide SeriesErrors, Mixed, Pow2;
    MixedSeries(base, 25, 0, Pow2(25));
    PowersListed();
  }

  /** The memories of one size for which the first `n` reports are right. */
  ghost predicate AllTrusted(base: nat, m: nat, n: nat) {
    forall line, faults | |line| == Pow2(m) && Fits(line, faults) :: Trusted(base, line, faults, n)
  }

  /** How long the reports can be trusted, exactly.  Up to 32 MB for fewer than 2^(27 - m) series over 2^m words; at
      64 MB for three, at 128 MB for one, and from 256 MB on not even for one. */
  lemma TrustedExactly(base: nat, m: nat, n: nat)
    requires m <= 29
    ensures AllTrusted(base, m, n) <==> n < Pow2(32 - Top(m))
  {
    hide Pow2, Right, Broken;
    if n < Pow2(32 - Top(m)) {
      forall line, faults, k | |line| == Pow2(m) && Fits(line, faults) && 1 <= k <= n
        ensures Right(base, line, faults, k)
      {
        RightBelow(base, line, faults, m, k);
      }
    } else {
      CounterWraps(base, m);
      WrapIsWrong(base, Direct(Pow2(m)), Broken(base, m), Pow2(32 - Top(m)), n);
    }
  }

  lemma WrapIsWrong(base: nat, line: seq<nat>, faults: seq<Fault>, k: nat, n: nat)
    requires Fits(line, faults) && |line| > 0 && 1 <= k <= n
    requires Int32(k * SeriesErrors(base, line, faults)) == 0 && !NoStuckBits(line, faults)
    ensures !Trusted(base, line, faults, n)
  {
    hide SeriesErrors, NoStuckBits, Int32;
    assert !Right(base, line, faults, k);
  }
}
