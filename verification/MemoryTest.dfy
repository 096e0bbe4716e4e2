/** The RAM test of the boot loader (qi/src/memory-test.c), run on memory that may be faulty: words may
    alias one another and bits may be stuck.  One series is characterised exactly: which faults it
    reports, which it cannot see, and when its 32-bit error counter can be trusted. */
module MemoryTest {
  import opened Arithmetic
  import opened BitVectors

  const ALL_ONES: Word := 0xffff_ffff

  /** Bits of a cell that always read as 0, and bits that always read as 1. */
  datatype Fault = Fault(low: Word, high: Word)

  const HEALTHY: Fault := Fault(0, 0)

  /** What a cell with this fault shows after `v` was stored in it. */
  function Observe(v: Word, f: Fault): Word { (v & !f.low) | f.high }

  // ---------------------------------------------------------------- masks

  /** `x & mask` is nonzero, for a mask with a single bit set. */
  predicate TestMask(x: nat, mask: nat)
    requires mask > 0
  {
    x / mask % 2 == 1
  }

  // ---------------------------------------------------------------- the memory under test

  /** Every word has a cell. */
  ghost predicate Fits(line: seq<nat>, faults: seq<Fault>) {
    forall i :: 0 <= i < |line| ==> line[i] < |faults|
  }

  /** A word-addressed memory.  The word at address `base + 4 * i` is kept in cell `line[i]`: two
      addresses with the same cell alias. */
  class Ram {
    const base: nat
    const line: seq<nat>
    const faults: seq<Fault>
    const cells: array<Word>

    ghost predicate Valid() {
      |faults| == cells.Length && Fits(line, faults)
    }

    predicate At(p: nat, i: nat) { i < |line| && p == base + 4 * i }

    constructor (base: nat, line: seq<nat>, faults: seq<Fault>)
      requires Fits(line, faults)
      ensures Valid() && fresh(cells)
      ensures this.base == base && this.line == line && this.faults == faults
    {
      this.base, this.line, this.faults := base, line, faults;
      this.cells := new Word[|faults|];
    }

    method Write(p: nat, v: Word, ghost i: nat)
      requires Valid() && At(p, i)
      modifies cells
      ensures cells[..] == old(cells[..])[line[i] := v]
    {
      cells[line[(p - base) / 4]] := v;
    }

    method Read(p: nat, ghost i: nat) returns (v: Word)
      requires Valid() && At(p, i)
      ensures v == Observe(cells[line[i]], faults[line[i]])
    {
      var c := line[(p - base) / 4];
      v := Observe(cells[c], faults[c]);
    }
  }

  // ---------------------------------------------------------------- specification of one pass

  /** The last value stored in cell `c` by writing `vals[0]`, ..., `vals[n - 1]` in address order. */
  ghost function Stored(line: seq<nat>, vals: seq<Word>, n: nat, c: nat): Word
    requires n <= |line| == |vals|
  {
    if n == 0 then 0
    else if line[n - 1] == c then vals[n - 1]
    else Stored(line, vals, n - 1, c)
  }

  ghost predicate Mismatch(line: seq<nat>, faults: seq<Fault>, vals: seq<Word>, j: nat)
    requires j < |line| == |vals| && line[j] < |faults|
  {
    Observe(Stored(line, vals, |vals|, line[j]), faults[line[j]]) != vals[j]
  }

  /** How many of the first `n` words read back wrong after the whole pattern was written. */
  ghost function Errors(line: seq<nat>, faults: seq<Fault>, vals: seq<Word>, n: nat): nat
    requires n <= |line| == |vals| && Fits(line, faults)
  {
    if n == 0 then 0
    else Errors(line, faults, vals, n - 1) + if Mismatch(line, faults, vals, n - 1) then 1 else 0
  }

  /** The same for one pass, which may read fewer words than it wrote. */
  ghost function PassErrors(line: seq<nat>, faults: seq<Fault>, vals: seq<Word>, read: nat := |vals|): nat
    requires read <= |line| == |vals| && Fits(line, faults)
  {
    Errors(line, faults, vals, read)
  }

  /** The words a range of this length touches: those that begin in it. */
  predicate Covers(line: seq<nat>, length: nat) {
    |line| == (length + 3) / 4
  }

  /** The pattern of `memory_test_const32`. */
  function Flood(n: nat, v: Word): (r: seq<Word>)
    ensures |r| == n
  {
    seq(n, _ => v)
  }

  /** The pattern of `memory_test_ads`: ones exactly where the address meets the mask. */
  function Marked(base: nat, n: nat, mask: nat): (r: seq<Word>)
    requires mask > 0
    ensures |r| == n
  {
    seq(n, i requires 0 <= i < n => if TestMask(base + 4 * i, mask) then ALL_ONES else 0)
  }

  // ---------------------------------------------------------------- the passes of the source

  /** The cells hold what the first `n` writes of the pattern left. */
  ghost predicate Holds(cells: seq<Word>, line: seq<nat>, vals: seq<Word>, n: nat)
    requires n <= |line| == |vals|
  {
    forall i :: 0 <= i < n ==> line[i] < |cells| && cells[line[i]] == Stored(line, vals, n, line[i])
  }

  lemma HoldsNext(cells: seq<Word>, line: seq<nat>, vals: seq<Word>, n: nat)
    requires n < |line| == |vals| && Holds(cells, line, vals, n) && line[n] < |cells|
    ensures Holds(cells[line[n] := vals[n]], line, vals, n + 1)
  {
  }

  lemma CountNext(line: seq<nat>, faults: seq<Fault>, vals: seq<Word>, n: nat, cells: seq<Word>)
    requires n < |line| == |vals| && Fits(line, faults) && |cells| == |faults|
    requires Holds(cells, line, vals, |vals|)
    ensures Int32(Errors(line, faults, vals, n + 1)) ==
            if Observe(cells[line[n]], faults[line[n]]) != vals[n]
            then Int32(Int32(Errors(line, faults, vals, n)) + 1)
            else Int32(Errors(line, faults, vals, n))
  {
    hide Stored, Observe, Int32;
    assert cells[line[n]] == Stored(line, vals, |vals|, line[n]);
    Int32Add(Errors(line, faults, vals, n), 1);
  }

  lemma Int32Add(a: int, b: int)
    ensures Int32(Int32(a) + b) == Int32(a + b)
  {
  }

  method MemoryTestConst32(ram: Ram, length: nat, value: Word) returns (errors: int)
    requires ram.Valid() && Covers(ram.line, length) && ram.base + 4 * |ram.line| < TWO32
    modifies ram.cells
    ensures errors == Int32(PassErrors(ram.line, ram.faults, Flood(|ram.line|, value), length / 4))
  {
    hide Int32, Stored, Errors, Observe, Holds;
    ghost var vals := Flood(|ram.line|, value);
    var start := ram.base;
    var p, pend := start, start + length;
    ghost var i := 0;
    NothingHeld(ram.cells[..], ram.line, vals);
    while p < pend
      invariant i <= |ram.line| && p == start + 4 * i
      invariant Holds(ram.cells[..], ram.line, vals, i)
    {
      HoldsNext(ram.cells[..], ram.line, vals, i);
      ram.Write(p, value, i);
      p := p + 4;
      i := i + 1;
    }
    p := start;
    var count := length / 4;
    errors := 0;
    i := 0;
    NothingCounted(ram.line, ram.faults, vals);
    while count > 0
      invariant 0 <= count && i + count == length / 4 && p == start + 4 * i
      invariant errors == Int32(Errors(ram.line, ram.faults, vals, i))
      invariant Holds(ram.cells[..], ram.line, vals, |vals|)
    {
      count := count - 1;
      CountNext(ram.line, ram.faults, vals, i, ram.cells[..]);
      var got := ram.Read(p, i);
      p := p + 4;
      i := i + 1;
      if got != value {
        errors := Int32(errors + 1);
      }
    }
  }

  lemma NothingHeld(cells: seq<Word>, line: seq<nat>, vals: seq<Word>)
    requires |line| == |vals|
    ensures Holds(cells, line, vals, 0)
  {
  }

  lemma NothingCounted(line: seq<nat>, faults: seq<Fault>, vals: seq<Word>)
    requires |line| == |vals| && Fits(line, faults)
    ensures Int32(Errors(line, faults, vals, 0)) == 0
  {
  }

  method MemoryTestAds(ram: Ram, length: nat, mask: nat) returns (errors: int)
    requires ram.Valid() && Covers(ram.line, length) && ram.base + 4 * |ram.line| < TWO32 && mask > 0
    modifies ram.cells
    ensures errors == Int32(PassErrors(ram.line, ram.faults, Marked(ram.base, |ram.line|, mask)))
  {
    hide Int32, Stored, Errors, Observe, Holds, TestMask;
    ghost var vals := Marked(ram.base, |ram.line|, mask);
    var start := ram.base;
    var p, pend := start, start + length;
    ghost var i := 0;
    NothingHeld(ram.cells[..], ram.line, vals);
    while p < pend
      invariant i <= |ram.line| && p == start + 4 * i
      invariant Holds(ram.cells[..], ram.line, vals, i)
    {
      HoldsNext(ram.cells[..], ram.line, vals, i);
      if TestMask(p, mask) {
        ram.Write(p, ALL_ONES, i);
      } else {
        ram.Write(p, 0, i);
      }
      p := p + 4;
      i := i + 1;
    }
    p := start;
    errors := 0;
    i := 0;
    NothingCounted(ram.line, ram.faults, vals);
    while p < pend
      invariant i <= |ram.line| && p == start + 4 * i
      invariant errors == Int32(Errors(ram.line, ram.faults, vals, i))
      invariant Holds(ram.cells[..], ram.line, vals, |vals|)
    {
      CountNext(ram.line, ram.faults, vals, i, ram.cells[..]);
      var got := ram.Read(p, i);
      if TestMask(p, mask) {
        if got != ALL_ONES { errors := Int32(errors + 1); }
      } else {
        if got != 0 { errors := Int32(errors + 1); }
      }
      p := p + 4;
      i := i + 1;
    }
  }

  /** The pattern `1 << k` of `memory_test_walking1`. */
  function Walk(k: nat): Word {
    if k == 0 then 1 else Walk(k - 1) << 1
  }

  lemma WalkEnds(k: nat)
    requires k <= 32
    ensures Walk(k) == 0 <==> k == 32
  {
    hide Walk;
    WalkAt();
    if k < 32 && Walk(k) == 0 { ZeroStays(k, 31); }
  }

  lemma WalkAt()
    ensures Walk(31) == 0x8000_0000 && Walk(32) == 0
  {
    assert Walk(4) == 0x10;
    assert Walk(8) == 0x100;
    assert Walk(12) == 0x1000;
    assert Walk(16) == 0x1_0000;
    assert Walk(20) == 0x10_0000;
    assert Walk(24) == 0x100_0000;
    assert Walk(28) == 0x1000_0000;
  }

  lemma ZeroStays(k: nat, n: nat)
    requires k <= n && Walk(k) == 0
    ensures Walk(n) == 0
  {
    if k < n { ZeroStays(k, n - 1); }
  }

  ghost function WalkErrors(line: seq<nat>, faults: seq<Fault>, k: nat, read: nat := |line|): nat
    requires read <= |line| && Fits(line, faults)
    decreases k
  {
    if k == 0 then 0
    else WalkErrors(line, faults, k - 1, read) + PassErrors(line, faults, Flood(|line|, Walk(k - 1)), read)
  }

  method MemoryTestWalking1(ram: Ram, length: nat) returns (errors: int)
    requires ram.Valid() && Covers(ram.line, length) && ram.base + 4 * |ram.line| < TWO32
    modifies ram.cells
    ensures errors == Int32(WalkErrors(ram.line, ram.faults, 32, length / 4))
  {
    hide Int32, PassErrors, Walk;
    errors := 0;
    Int32Small();
    var value: Word := 1;
    ghost var k: nat := 0;
    assert Walk(0) == 1 by { WalkStarts(); }
    WalkEnds(0);
    while value != 0
      invariant k <= 32 && value == Walk(k)
      invariant errors == Int32(WalkErrors(ram.line, ram.faults, k, length / 4))
      decreases 32 - k
    {
      WalkEnds(k);
      var e := MemoryTestConst32(ram, length, value);
      ghost var pass := PassErrors(ram.line, ram.faults, Flood(|ram.line|, value), length / 4);
      Int32Sum(WalkErrors(ram.line, ram.faults, k, length / 4), pass);
      errors := Int32(errors + e);
      WalkNext(k);
      value := value << 1;
      k := k + 1;
    }
    WalkEnds(k);
  }

  lemma Int32Small()
    ensures Int32(0) == 0
  {
  }

  lemma WalkStarts()
    ensures Walk(0) == 1
  {
  }

  lemma WalkNext(k: nat)
    ensures Walk(k + 1) == Walk(k) << 1
  {
  }

  lemma Int32Sum(a: int, b: int)
    ensures Int32(Int32(a) + Int32(b)) == Int32(a + b)
  {
    hide Int32;
    Int32Add(a, Int32(b));
    Int32Add(b, a);
  }

  // ---------------------------------------------------------------- one series

  function TrailingZeros(x: nat): nat
    requires x > 0
  {
    if x % 2 == 1 then 0 else 1 + TrailingZeros(x / 2)
  }

  predicate BitSet(x: nat, k: nat) {
    if k == 0 then x % 2 == 1 else BitSet(x / 2, k - 1)
  }

  lemma DivDiv(x: nat, m: nat)
    requires m > 0
    ensures x / (2 * m) == x / 2 / m && x % (2 * m) == 2 * (x / 2 % m) + x % 2
  {
    var q, r := x / 2 / m, x / 2 % m;
    assert x == q * (2 * m) + (2 * r + x % 2);
    DivModUnique(x, 2 * m, q, 2 * r + x % 2);
  }

  /** A single-bit mask tests one bit. */
  lemma MaskIsBit(x: nat, k: nat)
    ensures TestMask(x, Pow2(k)) <==> BitSet(x, k)
  {
    if k > 0 {
      MaskIsBit(x / 2, k - 1);
      DivDiv(x, Pow2(k - 1));
    }
  }

  lemma LowestBit(x: nat, k: nat)
    requires x > 0 && k <= TrailingZeros(x)
    ensures BitSet(x, k) <==> k == TrailingZeros(x)
  {
    if k > 0 { LowestBit(x / 2, k - 1); }
  }

  ghost function AdsErrors(base: nat, line: seq<nat>, faults: seq<Fault>, k: nat): nat
    requires Fits(line, faults)
  {
    if k == 0 then 0
    else AdsErrors(base, line, faults, k - 1) + PassErrors(line, faults, Marked(base, |line|, Pow2(k - 1)))
  }

  const PATTERNS: seq<Word> := [0x55555555, 0xaaaaaaaa, 0x55aa55aa, 0xaa55aa55, 0x00ff00ff, 0xff00ff00]

  ghost function FloodErrors(line: seq<nat>, faults: seq<Fault>, patterns: seq<Word>, read: nat := |line|): nat
    requires read <= |line| && Fits(line, faults)
    decreases |patterns|
  {
    if patterns == [] then 0
    else FloodErrors(line, faults, patterns[..|patterns| - 1], read) +
         PassErrors(line, faults, Flood(|line|, patterns[|patterns| - 1]), read)
  }

  /** All read-back errors of one series: six floods, 32 walking ones, one address pass per mask below
      the lowest bit of the length. */
  ghost function SeriesErrors(base: nat, line: seq<nat>, faults: seq<Fault>, length: nat := 4 * |line|): nat
    requires Fits(line, faults) && length > 0 && Covers(line, length)
  {
    FloodErrors(line, faults, PATTERNS, length / 4) + WalkErrors(line, faults, 32, length / 4) +
    AdsErrors(base, line, faults, TrailingZeros(length))
  }

  lemma FloodNext(line: seq<nat>, faults: seq<Fault>, patterns: seq<Word>, v: Word, read: nat := |line|)
    requires read <= |line| && Fits(line, faults)
    ensures FloodErrors(line, faults, patterns + [v], read) ==
            FloodErrors(line, faults, patterns, read) + PassErrors(line, faults, Flood(|line|, v), read)
  {
    assert (patterns + [v])[..|patterns|] == patterns;
  }

  method OneFlood(ram: Ram, length: nat, value: Word, ghost done: seq<Word>, ghost before: int, errors: int)
    returns (r: int)
    requires ram.Valid() && Covers(ram.line, length) && ram.base + 4 * |ram.line| < TWO32
    requires errors == Int32(before + FloodErrors(ram.line, ram.faults, done, length / 4))
    modifies ram.cells
    ensures r == Int32(before + FloodErrors(ram.line, ram.faults, done + [value], length / 4))
  {
    hide Int32, PassErrors, FloodErrors;
    var e := MemoryTestConst32(ram, length, value);
    FloodNext(ram.line, ram.faults, done, value, length / 4);
    Int32Sum(before + FloodErrors(ram.line, ram.faults, done, length / 4),
             PassErrors(ram.line, ram.faults, Flood(|ram.line|, value), length / 4));
    r := Int32(errors + e);
  }

  lemma Patterns()
    ensures PATTERNS == [] + [0x55555555] + [0xaaaaaaaa] + [0x55aa55aa] + [0xaa55aa55] + [0x00ff00ff] + [0xff00ff00]
  {
  }

  lemma NoFloods(line: seq<nat>, faults: seq<Fault>, before: int, read: nat := |line|)
    requires read <= |line| && Fits(line, faults)
    ensures before + FloodErrors(line, faults, [], read) == before
  {
  }

  /** One pass of the endless loop of `__memory_test`; `errors` is the running total. */
  method Series(ram: Ram, length: nat, before: int) returns (errors: int)
    requires ram.Valid() && length > 0 && Covers(ram.line, length) && ram.base + 4 * |ram.line| < TWO32
    requires before == Int32(before)
    modifies ram.cells
    ensures errors == Int32(before + SeriesErrors(ram.base, ram.line, ram.faults, length))
  {
    hide Int32, PassErrors, FloodErrors, WalkErrors, AdsErrors, TestMask, Pow2, PATTERNS, TrailingZeros, BitSet;
    Patterns();
    NoFloods(ram.line, ram.faults, before, length / 4);
    errors := before;
    errors := OneFlood(ram, length, 0x55555555, [], before, errors);
    errors := OneFlood(ram, length, 0xaaaaaaaa, [] + [0x55555555], before, errors);
    errors := OneFlood(ram, length, 0x55aa55aa, [] + [0x55555555] + [0xaaaaaaaa], before, errors);
    errors := OneFlood(ram, length, 0xaa55aa55, [] + [0x55555555] + [0xaaaaaaaa] + [0x55aa55aa], before, errors);
    errors := OneFlood(ram, length, 0x00ff00ff,
                       [] + [0x55555555] + [0xaaaaaaaa] + [0x55aa55aa] + [0xaa55aa55], before, errors);
    errors := OneFlood(ram, length, 0xff00ff00,
                       [] + [0x55555555] + [0xaaaaaaaa] + [0x55aa55aa] + [0xaa55aa55] + [0x00ff00ff], before, errors);
    ghost var sum := before + FloodErrors(ram.line, ram.faults, PATTERNS, length / 4);
    var e := MemoryTestWalking1(ram, length);
    Int32Sum(sum, WalkErrors(ram.line, ram.faults, 32, length / 4));
    errors := Int32(errors + e);
    sum := sum + WalkErrors(ram.line, ram.faults, 32, length / 4);
    errors := AddressPasses(ram, length, sum, errors);
  }

  method AddressPasses(ram: Ram, length: nat, ghost before: int, start: int) returns (errors: int)
    requires ram.Valid() && length > 0 && Covers(ram.line, length) && ram.base + 4 * |ram.line| < TWO32
    requires start == Int32(before)
    modifies ram.cells
    ensures errors == Int32(before + AdsErrors(ram.base, ram.line, ram.faults, TrailingZeros(length)))
  {
    hide Int32, PassErrors, TestMask, TrailingZeros, BitSet;
    errors := start;
    var mask := 1;
    ghost var k: nat := 0;
    MaskIsBit(length, 0);
    LowestBit(length, 0);
    while !TestMask(length, mask)
      invariant k <= TrailingZeros(length) && mask == Pow2(k)
      invariant TestMask(length, mask) <==> k == TrailingZeros(length)
      invariant errors == Int32(before + AdsErrors(ram.base, ram.line, ram.faults, k))
      decreases TrailingZeros(length) - k
    {
      var e := MemoryTestAds(ram, length, mask);
      Int32Sum(before + AdsErrors(ram.base, ram.line, ram.faults, k),
               PassErrors(ram.line, ram.faults, Marked(ram.base, |ram.line|, mask)));
      errors := Int32(errors + e);
      mask := mask * 2;
      k := k + 1;
      MaskIsBit(length, k);
      LowestBit(length, k);
    }
  }

  // ---------------------------------------------------------------- what a pass can see

  lemma {:induction false} ErrorsMonotone(line: seq<nat>, faults: seq<Fault>, vals: seq<Word>, n: nat)
    requires n <= |line| == |vals| && Fits(line, faults)
    ensures Errors(line, faults, vals, n) == 0 <==> forall j :: 0 <= j < n ==> !Mismatch(line, faults, vals, j)
    ensures Errors(line, faults, vals, n) <= n
  {
    hide Mismatch;
    if n > 0 { ErrorsMonotone(line, faults, vals, n - 1); }
  }

  lemma {:induction false} StoredFrom(line: seq<nat>, vals: seq<Word>, n: nat, j: nat)
    requires j < n <= |line| == |vals|
    ensures exists i :: 0 <= i < n && line[i] == line[j] && Stored(line, vals, n, line[j]) == vals[i]
  {
    if line[n - 1] != line[j] { StoredFrom(line, vals, n - 1, j); }
  }

  ghost predicate NoStuckBits(line: seq<nat>, faults: seq<Fault>)
    requires Fits(line, faults)
  {
    forall i :: 0 <= i < |line| ==> faults[line[i]] == HEALTHY
  }

  /** Aliased words were given the same value. */
  ghost predicate AliasesAgree(line: seq<nat>, vals: seq<Word>)
    requires |line| == |vals|
  {
    forall i, j :: 0 <= i < |line| && 0 <= j < |line| && line[i] == line[j] ==> vals[i] == vals[j]
  }

  /** Exactly when a pass over memory without stuck bits is clean. */
  lemma PassClean(line: seq<nat>, faults: seq<Fault>, vals: seq<Word>)
    requires |line| == |vals| && Fits(line, faults) && NoStuckBits(line, faults)
    ensures PassErrors(line, faults, vals) == 0 <==> AliasesAgree(line, vals)
  {
    hide Errors, Stored, Observe;
    ErrorsMonotone(line, faults, vals, |vals|);
    HealthyCell();
    if PassErrors(line, faults, vals) == 0 {
      forall i, j | 0 <= i < |line| && 0 <= j < |line| && line[i] == line[j] ensures vals[i] == vals[j] {
        assert !Mismatch(line, faults, vals, i) && !Mismatch(line, faults, vals, j);
      }
    }
    if AliasesAgree(line, vals) {
      forall j | 0 <= j < |line| ensures !Mismatch(line, faults, vals, j) {
        StoredFrom(line, vals, |vals|, j);
      }
    }
  }

  lemma HealthyCell()
    ensures forall v: Word {:trigger Observe(v, HEALTHY)} :: Observe(v, HEALTHY) == v
  {
  }

  lemma FloodStored(line: seq<nat>, v: Word, n: nat, j: nat)
    requires j < n <= |line|
    ensures Stored(line, Flood(|line|, v), n, line[j]) == v
  {
    StoredFrom(line, Flood(|line|, v), n, j);
  }

  lemma CheckerboardsSee(f: Fault)
    requires Observe(0x55555555, f) == 0x55555555 && Observe(0xaaaaaaaa, f) == 0xaaaaaaaa
    ensures f == HEALTHY
  {
  }

  lemma CleanFloods(line: seq<nat>, faults: seq<Fault>)
    requires Fits(line, faults)
    requires PassErrors(line, faults, Flood(|line|, 0x55555555)) == 0
    requires PassErrors(line, faults, Flood(|line|, 0xaaaaaaaa)) == 0
    ensures NoStuckBits(line, faults)
  {
    hide Errors, Stored, Observe;
    var a, b := Flood(|line|, 0x55555555), Flood(|line|, 0xaaaaaaaa);
    ErrorsMonotone(line, faults, a, |a|);
    ErrorsMonotone(line, faults, b, |b|);
    forall i | 0 <= i < |line| ensures faults[line[i]] == HEALTHY {
      assert !Mismatch(line, faults, a, i) && !Mismatch(line, faults, b, i);
      FloodStored(line, 0x55555555, |a|, i);
      FloodStored(line, 0xaaaaaaaa, |b|, i);
      CheckerboardsSee(faults[line[i]]);
    }
  }

  lemma FloodsAgree(line: seq<nat>, v: Word)
    ensures AliasesAgree(line, Flood(|line|, v))
  {
  }

  // ---------------------------------------------------------------- what a series can see

  /** Aliased words lie a multiple of `2^t` bytes apart. */
  ghost predicate AliasesFarApart(base: nat, line: seq<nat>, t: nat) {
    forall i, j :: 0 <= i < |line| && 0 <= j < |line| && line[i] == line[j] ==>
                     (base + 4 * i) % Pow2(t) == (base + 4 * j) % Pow2(t)
  }

  lemma ModDouble(x: nat, y: nat, m: nat)
    requires m > 0
    ensures x % (2 * m) == y % (2 * m) <==> x % 2 == y % 2 && x / 2 % m == y / 2 % m
  {
    DivDiv(x, m);
    DivDiv(y, m);
  }

  /** The `t` low bits of `x` and `y` agree. */
  predicate SameBits(x: nat, y: nat, t: nat) {
    t == 0 || (SameBits(x, y, t - 1) && BitSet(x, t - 1) == BitSet(y, t - 1))
  }

  lemma {:induction false} SameBitsHalf(x: nat, y: nat, t: nat)
    requires t > 0
    ensures SameBits(x, y, t) <==> x % 2 == y % 2 && SameBits(x / 2, y / 2, t - 1)
  {
    if t > 1 { SameBitsHalf(x, y, t - 1); }
  }

  /** Two addresses agree in their `t` low bits exactly when they are congruent modulo `2^t`. */
  lemma {:induction false} SameBitsCongruent(x: nat, y: nat, t: nat)
    ensures x % Pow2(t) == y % Pow2(t) <==> SameBits(x, y, t)
  {
    hide SameBits;
    if t > 0 {
      SameBitsCongruent(x / 2, y / 2, t - 1);
      ModDouble(x, y, Pow2(t - 1));
      SameBitsHalf(x, y, t);
    } else {
      NoBits(x, y);
    }
  }

  lemma NoBits(x: nat, y: nat)
    ensures SameBits(x, y, 0)
  {
  }

  lemma MarkedAgree(base: nat, line: seq<nat>, k: nat)
    ensures AliasesAgree(line, Marked(base, |line|, Pow2(k))) <==>
            forall i, j :: 0 <= i < |line| && 0 <= j < |line| && line[i] == line[j] ==>
                             BitSet(base + 4 * i, k) == BitSet(base + 4 * j, k)
  {
    hide TestMask, BitSet;
    var vals := Marked(base, |line|, Pow2(k));
    forall i | 0 <= i < |line| ensures vals[i] == ALL_ONES <==> BitSet(base + 4 * i, k) {
      MaskIsBit(base + 4 * i, k);
    }
  }

  ghost predicate BitsAgree(base: nat, line: seq<nat>, t: nat) {
    forall i, j :: 0 <= i < |line| && 0 <= j < |line| && line[i] == line[j] ==>
                     SameBits(base + 4 * i, base + 4 * j, t)
  }

  lemma FarApartIsBits(base: nat, line: seq<nat>, t: nat)
    ensures AliasesFarApart(base, line, t) <==> BitsAgree(base, line, t)
  {
    hide SameBits, Pow2;
    forall i, j | 0 <= i < |line| && 0 <= j < |line| { SameBitsCongruent(base + 4 * i, base + 4 * j, t); }
  }

  lemma {:induction false} AddressPassesClean(base: nat, line: seq<nat>, faults: seq<Fault>, t: nat)
    requires Fits(line, faults) && NoStuckBits(line, faults)
    ensures AdsErrors(base, line, faults, t) == 0 <==> BitsAgree(base, line, t)
  {
    hide BitSet, PassErrors, AliasesAgree, NoStuckBits;
    if t > 0 {
      AddressPassesClean(base, line, faults, t - 1);
      PassClean(line, faults, Marked(base, |line|, Pow2(t - 1)));
      MarkedAgree(base, line, t - 1);
    }
  }

  lemma {:induction false} WalksClean(line: seq<nat>, faults: seq<Fault>, k: nat)
    requires Fits(line, faults) && NoStuckBits(line, faults)
    ensures WalkErrors(line, faults, k) == 0
  {
    hide PassErrors, Walk, AliasesAgree;
    if k > 0 {
      WalksClean(line, faults, k - 1);
      FloodsAgree(line, Walk(k - 1));
      PassClean(line, faults, Flood(|line|, Walk(k - 1)));
    }
  }

  lemma {:induction false} FloodsClean(line: seq<nat>, faults: seq<Fault>, patterns: seq<Word>)
    requires Fits(line, faults) && NoStuckBits(line, faults)
    ensures FloodErrors(line, faults, patterns) == 0
    decreases |patterns|
  {
    hide PassErrors, AliasesAgree;
    if patterns != [] {
      var v := patterns[|patterns| - 1];
      FloodsClean(line, faults, patterns[..|patterns| - 1]);
      FloodsAgree(line, v);
      PassClean(line, faults, Flood(|line|, v));
    }
  }

  lemma {:induction false} FloodsInclude(line: seq<nat>, faults: seq<Fault>, patterns: seq<Word>, k: nat,
                                         read: nat := |line|)
    requires read <= |line| && Fits(line, faults) && k < |patterns|
    ensures PassErrors(line, faults, Flood(|line|, patterns[k]), read) <= FloodErrors(line, faults, patterns, read)
    decreases |patterns|
  {
    hide PassErrors;
    if k < |patterns| - 1 { FloodsInclude(line, faults, patterns[..|patterns| - 1], k, read); }
  }

  /** Completeness of one series over any number of whole words: it counts no error exactly when no
      bit is stuck and any two words sharing a cell are congruent modulo the lowest bit of the length. */
  lemma SeriesClean(base: nat, line: seq<nat>, faults: seq<Fault>)
    requires Fits(line, faults) && |line| > 0
    ensures SeriesErrors(base, line, faults) == 0 <==>
            NoStuckBits(line, faults) && AliasesFarApart(base, line, TrailingZeros(4 * |line|))
  {
    hide FloodErrors, WalkErrors, AdsErrors, PassErrors, AliasesFarApart, BitsAgree, NoStuckBits, TrailingZeros;
    var t := TrailingZeros(4 * |line|);
    FarApartIsBits(base, line, t);
    if SeriesErrors(base, line, faults) == 0 {
      FloodsInclude(line, faults, PATTERNS, 0);
      FloodsInclude(line, faults, PATTERNS, 1);
      CleanFloods(line, faults);
      AddressPassesClean(base, line, faults, t);
    }
    if NoStuckBits(line, faults) && BitsAgree(base, line, t) {
      FloodsClean(line, faults, PATTERNS);
      WalksClean(line, faults, 32);
      AddressPassesClean(base, line, faults, t);
    }
  }

  // ---------------------------------------------------------------- lengths that are no whole number of words

  /** Reading the first words after a flood finds those that cannot hold the value. */
  lemma FloodPass(line: seq<nat>, faults: seq<Fault>, v: Word, read: nat)
    requires read <= |line| && Fits(line, faults)
    ensures PassErrors(line, faults, Flood(|line|, v), read) == 0 <==>
            forall j :: 0 <= j < read ==> Observe(v, faults[line[j]]) == v
  {
    hide Errors, Stored, Observe;
    var vals := Flood(|line|, v);
    ErrorsMonotone(line, faults, vals, read);
    forall j | 0 <= j < read ensures Mismatch(line, faults, vals, j) <==> Observe(v, faults[line[j]]) != v {
      FloodStored(line, v, |line|, j);
    }
  }

  /** The first `read` words are in sound cells. */
  ghost predicate SoundUpTo(line: seq<nat>, faults: seq<Fault>, read: nat)
    requires read <= |line| && Fits(line, faults)
  {
    forall j :: 0 <= j < read ==> faults[line[j]] == HEALTHY
  }

  lemma SoundFlood(line: seq<nat>, faults: seq<Fault>, v: Word, read: nat)
    requires read <= |line| && Fits(line, faults) && SoundUpTo(line, faults, read)
    ensures PassErrors(line, faults, Flood(|line|, v), read) == 0
  {
    hide PassErrors, Observe;
    FloodPass(line, faults, v, read);
    HealthyCell();
  }

  lemma {:induction false} SoundFloods(line: seq<nat>, faults: seq<Fault>, patterns: seq<Word>, read: nat)
    requires read <= |line| && Fits(line, faults) && SoundUpTo(line, faults, read)
    ensures FloodErrors(line, faults, patterns, read) == 0
    decreases |patterns|
  {
    hide PassErrors, SoundUpTo;
    if patterns != [] {
      SoundFloods(line, faults, patterns[..|patterns| - 1], read);
      SoundFlood(line, faults, patterns[|patterns| - 1], read);
    }
  }

  lemma {:induction false} SoundWalks(line: seq<nat>, faults: seq<Fault>, k: nat, read: nat)
    requires read <= |line| && Fits(line, faults) && SoundUpTo(line, faults, read)
    ensures WalkErrors(line, faults, k, read) == 0
    decreases k
  {
    hide PassErrors, Walk, SoundUpTo;
    if k > 0 {
      SoundWalks(line, faults, k - 1, read);
      SoundFlood(line, faults, Walk(k - 1), read);
    }
  }

  lemma SeenByFloods(line: seq<nat>, faults: seq<Fault>, read: nat)
    requires read <= |line| && Fits(line, faults) && FloodErrors(line, faults, PATTERNS, read) == 0
    ensures SoundUpTo(line, faults, read)
  {
    hide PassErrors, FloodErrors, Observe;
    FloodsInclude(line, faults, PATTERNS, 0, read);
    FloodsInclude(line, faults, PATTERNS, 1, read);
    FloodPass(line, faults, 0x55555555, read);
    FloodPass(line, faults, 0xaaaaaaaa, read);
    forall j | 0 <= j < read ensures faults[line[j]] == HEALTHY {
      CheckerboardsSee(faults[line[j]]);
    }
  }

  /** Two bytes beyond whole words leave one address pass, whose mask is the lowest bit of the address: the same
      value everywhere. */
  lemma MarkedByParity(base: nat, n: nat)
    ensures Marked(base, n, 1) == Flood(n, if base % 2 == 1 then ALL_ONES else 0)
  {
    hide TestMask;
    forall i | 0 <= i < n { SameParity(base, i); }
  }

  lemma SameParity(base: nat, i: nat)
    ensures TestMask(base + 4 * i, 1) <==> base % 2 == 1
  {
  }

  lemma RaggedPasses(base: nat, line: seq<nat>, faults: seq<Fault>, length: nat)
    requires Fits(line, faults) && length % 4 != 0
    ensures AdsErrors(base, line, faults, TrailingZeros(length)) ==
            if length % 4 == 2
            then PassErrors(line, faults, Flood(|line|, if base % 2 == 1 then ALL_ONES else 0), |line|)
            else 0
  {
    hide PassErrors;
    MarkedByParity(base, |line|);
    assert TrailingZeros(length) == if length % 4 == 2 then 1 else 0;
    assert AdsErrors(base, line, faults, 0) == 0;
    assert Pow2(0) == 1;
  }

  /** The same for a length that is no whole number of words.  The patterns and the walking ones pass over the last
      word, which begins in the range but does not end in it; with two bytes left over it must hold the value of the
      one address pass, and aliases go unseen. */
  lemma SeriesCleanRagged(base: nat, line: seq<nat>, faults: seq<Fault>, length: nat)
    requires Fits(line, faults) && Covers(line, length) && length % 4 != 0
    ensures var v := if base % 2 == 1 then ALL_ONES else 0;
            SeriesErrors(base, line, faults, length) == 0 <==>
            SoundUpTo(line, faults, |line| - 1) &&
            (length % 4 == 2 ==> Observe(v, faults[line[|line| - 1]]) == v)
  {
    hide FloodErrors, WalkErrors, AdsErrors, PassErrors, Observe, TrailingZeros;
    var read, v := length / 4, if base % 2 == 1 then ALL_ONES else 0;
    assert read == |line| - 1;
    RaggedPasses(base, line, faults, length);
    FloodPass(line, faults, v, |line|);
    HealthyCell();
    if SoundUpTo(line, faults, read) {
      SoundFloods(line, faults, PATTERNS, read);
      SoundWalks(line, faults, 32, read);
    }
    if SeriesErrors(base, line, faults, length) == 0 { SeenByFloods(line, faults, read); }
  }

  // ---------------------------------------------------------------- powers of two

  ghost predicate NoAliases(line: seq<nat>) {
    forall i, j :: 0 <= i < j < |line| ==> line[i] != line[j]
  }

  lemma {:induction false} PowerOfTwoLength(m: nat)
    ensures TrailingZeros(4 * Pow2(m)) == m + 2 && Pow2(m + 2) == 4 * Pow2(m)
  {
    if m == 0 {
      assert TrailingZeros(4) == 1 + TrailingZeros(2);
    } else {
      PowerOfTwoLength(m - 1);
      assert 4 * Pow2(m) / 2 == 4 * Pow2(m - 1);
    }
  }

  lemma SmallDifference(x: nat, y: nat, m: nat)
    requires m > 0 && x < y < x + m
    ensures x % m != y % m
  {
    if x % m == y % m {
      var k := y / m - x / m;
      assert k * m == y / m * m - x / m * m by { Distribute(y / m, x / m, m); }
      if k >= 1 { AtLeast(k, m); }
      if k <= -1 { AtLeast(-k, m); }
    }
  }

  /** Over a power of two of memory, no error is counted exactly when the memory has no fault at all. */
  lemma SeriesCleanPowerOfTwo(base: nat, line: seq<nat>, faults: seq<Fault>, m: nat)
    requires Fits(line, faults) && |line| == Pow2(m)
    ensures SeriesErrors(base, line, faults) == 0 <==> NoStuckBits(line, faults) && NoAliases(line)
  {
    hide NoStuckBits, TrailingZeros, SeriesErrors, Pow2;
    SeriesClean(base, line, faults);
    PowerOfTwoLength(m);
    if AliasesFarApart(base, line, m + 2) {
      forall i, j | 0 <= i < j < |line| ensures line[i] != line[j] {
        SmallDifference(base + 4 * i, base + 4 * j, Pow2(m + 2));
      }
    }
  }

  // ---------------------------------------------------------------- the 32-bit error counter

  lemma PassBound(line: seq<nat>, faults: seq<Fault>, vals: seq<Word>)
    requires |line| == |vals| && Fits(line, faults)
    ensures PassErrors(line, faults, vals) <= |line|
  {
    ErrorsMonotone(line, faults, vals, |vals|);
  }

  lemma {:induction false} WalkBound(line: seq<nat>, faults: seq<Fault>, k: nat)
    requires Fits(line, faults)
    ensures WalkErrors(line, faults, k) <= k * |line|
  {
    hide PassErrors;
    if k > 0 {
      WalkBound(line, faults, k - 1);
      PassBound(line, faults, Flood(|line|, Walk(k - 1)));
      Distribute(k, 1, |line|);
    }
  }

  lemma {:induction false} AdsBound(base: nat, line: seq<nat>, faults: seq<Fault>, k: nat)
    requires Fits(line, faults)
    ensures AdsErrors(base, line, faults, k) <= k * |line|
  {
    hide PassErrors;
    if k > 0 {
      AdsBound(base, line, faults, k - 1);
      PassBound(line, faults, Marked(base, |line|, Pow2(k - 1)));
      Distribute(k, 1, |line|);
    }
  }

  lemma {:induction false} FloodBound(line: seq<nat>, faults: seq<Fault>, patterns: seq<Word>)
    requires Fits(line, faults)
    ensures FloodErrors(line, faults, patterns) <= |patterns| * |line|
    decreases |patterns|
  {
    hide PassErrors;
    if patterns != [] {
      FloodBound(line, faults, patterns[..|patterns| - 1]);
      PassBound(line, faults, Flood(|line|, patterns[|patterns| - 1]));
      Distribute(|patterns|, 1, |line|);
    }
  }

  lemma SeriesBound(base: nat, line: seq<nat>, faults: seq<Fault>)
    requires Fits(line, faults) && |line| > 0
    ensures SeriesErrors(base, line, faults) <= (38 + TrailingZeros(4 * |line|)) * |line|
  {
    hide FloodErrors, WalkErrors, AdsErrors, TrailingZeros;
    var t := TrailingZeros(4 * |line|);
    FloodBound(line, faults, PATTERNS);
    WalkBound(line, faults, 32);
    AdsBound(base, line, faults, t);
    Distribute(38 + t, t, |line|);
  }

  /** Every word in a cell of its own. */
  function Direct(n: nat): (r: seq<nat>)
    ensures |r| == n && forall i :: 0 <= i < n ==> r[i] == i
  {
    seq(n, i => i)
  }

  function AllHealthy(n: nat): (r: seq<Fault>)
    ensures |r| == n && forall i :: 0 <= i < n ==> r[i] == HEALTHY
  {
    seq(n, _ => HEALTHY)
  }

  // ---------------------------------------------------------------- lengths that are no power of two

  lemma {:induction false} LowestBitDivides(x: nat)
    requires x > 0
    ensures x % Pow2(TrailingZeros(x)) == 0 && Pow2(TrailingZeros(x)) <= x
  {
    if x % 2 == 0 {
      LowestBitDivides(x / 2);
      DivDiv(x, Pow2(TrailingZeros(x / 2)));
    }
  }

  /** Words 0 and 2^t / 4 in one cell, where 2^t is the lowest bit of the length. */
  function OneAlias(n: nat): (r: seq<nat>)
    requires n > 0
    ensures |r| == n
  {
    var k := Pow2(TrailingZeros(4 * n)) / 4;
    if k < n then Direct(n)[k := 0] else Direct(n)
  }

  lemma ModAdd(x: nat, m: nat)
    requires m > 0
    ensures (x + m) % m == x % m
  {
    DivModUnique(x + m, m, x / m + 1, x % m);
  }

  /** If the length is no power of two, the alias goes unseen. */
  lemma AliasMissed(base: nat, n: nat)
    requires n > 0 && Pow2(TrailingZeros(4 * n)) != 4 * n
    ensures var line, faults := OneAlias(n), AllHealthy(n);
            Fits(line, faults) && SeriesErrors(base, line, faults) == 0 && NoStuckBits(line, faults) && !NoAliases(line)
  {
    hide SeriesErrors, Pow2;
    var t := TrailingZeros(4 * n);
    LowestBitDivides(4 * n);
    FourTrailing(n);
    hide TrailingZeros;
    FourDivides(t);
    var k := Pow2(t) / 4;
    var line, faults := OneAlias(n), AllHealthy(n);
    assert 0 < k < n && line[0] == 0 == line[k];
    SeriesClean(base, line, faults);
    ModAdd(base, Pow2(t));
    assert base + 4 * k == base + Pow2(t);
    assert AliasesFarApart(base, line, t);
  }

  lemma FourDivides(t: nat)
    requires t >= 2
    ensures Pow2(t) == 4 * (Pow2(t) / 4) && Pow2(t) / 4 == Pow2(t - 2) > 0
  {
  }

  /** A series counts no error exactly when the memory is sound. */
  ghost predicate Told(base: nat, line: seq<nat>, faults: seq<Fault>)
    requires Fits(line, faults) && |line| > 0
  {
    SeriesErrors(base, line, faults) == 0 <==> NoStuckBits(line, faults) && NoAliases(line)
  }

  lemma AllTold(base: nat, m: nat)
    ensures Pow2(m) > 0
    ensures forall line, faults | |line| == Pow2(m) && Fits(line, faults) :: Told(base, line, faults)
  {
    hide SeriesErrors, NoStuckBits, NoAliases, Pow2;
    forall line: seq<nat>, faults | |line| == Pow2(m) && Fits(line, faults) ensures Told(base, line, faults) {
      SeriesCleanPowerOfTwo(base, line, faults, m);
    }
  }

  ghost predicate PowerOfTwo(n: nat) {
    exists m :: n == Pow2(m)
  }

  lemma LowestBitOnly(n: nat)
    requires n > 0 && !PowerOfTwo(n)
    ensures Pow2(TrailingZeros(4 * n)) != 4 * n
  {
    var t := TrailingZeros(4 * n);
    FourTrailing(n);
    FourDivides(t);
    assert n != Pow2(t - 2);
  }

  /** A series tells sound memory of a given size from faulty memory exactly if the size is a power of two. */
  lemma PowerOfTwoExactly(base: nat, n: nat)
    requires n > 0
    ensures (forall line, faults | |line| == n && Fits(line, faults) :: Told(base, line, faults)) <==> PowerOfTwo(n)
  {
    hide Told, OneAlias, AllHealthy, Pow2;
    if PowerOfTwo(n) {
      var m :| n == Pow2(m);
      AllTold(base, m);
    } else {
      LowestBitOnly(n);
      AliasMissed(base, n);
      MissedIsNotTold(base, OneAlias(n), AllHealthy(n));
    }
  }

  lemma MissedIsNotTold(base: nat, line: seq<nat>, faults: seq<Fault>)
    requires Fits(line, faults) && |line| > 0
    requires SeriesErrors(base, line, faults) == 0 && !NoAliases(line)
    ensures !Told(base, line, faults)
  {
    hide SeriesErrors, NoAliases;
  }

  lemma FourTrailing(n: nat)
    requires n > 0
    ensures TrailingZeros(4 * n) >= 2
  {
    assert TrailingZeros(4 * n) == 1 + TrailingZeros(2 * n) && TrailingZeros(2 * n) == 1 + TrailingZeros(n);
  }
}
