/** The printf engine of the boot loader (qi-usb-lcd/src/utils.c): number formatting, the two decimal
    printers, and the format scanner. */
module Printf {
  import opened Arithmetic
  import opened Numerals

  /** A `long` or `int` of the target. */
  type Long = x: int | -TWO31 <= x < TWO31

  /** Conversion of an integer to `long`, wrapping. */
  function ToLong(x: int): Long { Int32(x) }

  /** Conversion of a `long` to `unsigned long`. */
  function Unsigned(x: Long): (r: nat)
    ensures r < TWO32
  {
    x % TWO32
  }

  /** The flags of `number`, one field a bit. */
  datatype Flags = Flags(zeropad: bool, sign: bool, plus: bool, space: bool, left: bool, special: bool, large: bool)

  /** Character `d` of the source's digit string, "0123456789abcdefghijklmnopqrstuvwxyz" or its upper-case twin. */
  function DigitChar(d: nat, large: bool): char
    requires d < 36
  {
    if d < 10 then ('0' as int + d) as char
    else ((if large then 'A' as int else 'a' as int) + d - 10) as char
  }

  function Repeat(c: char, n: int): (r: string)
    ensures |r| == (if n > 0 then n else 0) && forall i :: 0 <= i < |r| ==> r[i] == c
  {
    if n <= 0 then "" else seq(n, _ => c)
  }

  function Max(a: int, b: int): int { if a > b then a else b }

  // ---------------------------------------------------------------- numerals

  /** The numeral of `m` in a base, most significant digit first, without leading zeros. */
  function Numeral(m: nat, base: nat, large: bool): (r: string)
    requires 2 <= base <= 36
    ensures |r| > 0
  {
    if m < base then [DigitChar(m, large)]
    else Numeral(m / base, base, large) + [DigitChar(m % base, large)]
  }

  lemma DigitReadsBack(d: nat, large: bool)
    requires d < 36
    ensures DigitValue(DigitChar(d, large)) == d
  {
  }

  lemma QuotientAndRest(m: nat, base: nat)
    requires 2 <= base <= m
    ensures m == m / base * base + m % base && m / base < m && m % base < base
  {
  }

  /** Reading a numeral gives back the number. */
  lemma {:induction false} NumeralReadsBack(m: nat, base: nat, large: bool)
    requires 2 <= base <= 36
    ensures ValueOf(Numeral(m, base, large), base) == m
  {
    hide DigitChar, DigitValue, ValueOf;
    if m < base {
      DigitReadsBack(m, large);
      ValueOfSnoc("", DigitChar(m, large), base);
      assert "" + [DigitChar(m, large)] == [DigitChar(m, large)];
      NothingReadsZero(base);
    } else {
      QuotientAndRest(m, base);
      NumeralReadsBack(m / base, base, large);
      DigitReadsBack(m % base, large);
      ValueOfSnoc(Numeral(m / base, base, large), DigitChar(m % base, large), base);
    }
  }

  lemma {:induction false} ZerosReadAsNothing(k: int, s: string, base: nat)
    ensures ValueOf(Repeat('0', k) + s, base) == ValueOf(s, base)
    decreases |s|, k
  {
    var t := Repeat('0', k) + s;
    if s != "" {
      assert t[..|t| - 1] == Repeat('0', k) + s[..|s| - 1];
      ZerosReadAsNothing(k, s[..|s| - 1], base);
    } else if k > 0 {
      assert t[..|t| - 1] == Repeat('0', k - 1) + "";
      ZerosReadAsNothing(k - 1, "", base);
    }
  }

  lemma {:induction false} NoLeadingZero(m: nat, base: nat, large: bool)
    requires 2 <= base <= 36
    ensures Numeral(m, base, large)[0] == '0' <==> m == 0
  {
    if m < base {
      DigitReadsBack(m, large);
    } else {
      NoLeadingZero(m / base, base, large);
    }
  }

  lemma {:induction false} NumeralIsShort(m: nat, base: nat, large: bool, n: nat)
    requires 2 <= base <= 36 && m < Pow2(n) && n > 0
    ensures |Numeral(m, base, large)| <= n
  {
    if m >= base {
      Halves(m, base);
      NumeralIsShort(m / base, base, large, n - 1);
    }
  }

  lemma Halves(m: nat, base: nat)
    requires base >= 2
    ensures m / base <= m / 2
  {
    var q := m / base;
    assert q * base <= m;
    assert q * 2 <= q * base;
  }

  // ---------------------------------------------------------------- what number prints

  function Magnitude(num: Long, flags: Flags): nat {
    var n: int := num;
    if flags.sign && n < 0 then -n else Unsigned(num)
  }

  function SignText(num: Long, flags: Flags): string {
    if !flags.sign then "" else if num < 0 then "-" else if flags.plus then "+" else if flags.space then " " else ""
  }

  function Prefix(base: nat, flags: Flags): string {
    if !flags.special then "" else if base == 8 then "0"
    else if base == 16 then ['0', DigitChar(33, flags.large)] else ""
  }

  /** The digits, filled with zeros up to the precision. */
  function Body(num: Long, base: nat, precision: int, flags: Flags): string
    requires 2 <= base <= 36
  {
    var digits := Numeral(Magnitude(num, flags), base, flags.large);
    Repeat('0', precision - |digits|) + digits
  }

  /** Sign, prefix and body, padded to `size` on the side the flags ask for. */
  function NumberText(num: Long, base: nat, size: int, precision: int, flags: Flags): string
    requires 2 <= base <= 36
  {
    var head := SignText(num, flags) + Prefix(base, flags);
    var body := Body(num, base, precision, flags);
    var pad := size - |head| - |body|;
    if flags.left then head + body + Repeat(' ', pad)
    else if flags.zeropad then head + Repeat('0', pad) + body
    else Repeat(' ', pad) + head + body
  }

  /** The length is the width asked for, or what sign, prefix and digits need if that is more. */
  lemma NumberLength(num: Long, base: nat, size: int, precision: int, flags: Flags)
    requires 2 <= base <= 36
    ensures var digits := |Numeral(Magnitude(num, flags), base, flags.large)|;
            |NumberText(num, base, size, precision, flags)| ==
            Max(size, |SignText(num, flags)| + |Prefix(base, flags)| + Max(precision, digits))
  {
  }

  lemma Repeats(c: char, m: nat, n: nat)
    ensures Repeat(c, m) + Repeat(c, n) == Repeat(c, m + n)
  {
  }

  lemma RepeatNone(c: char, n: int, s: string)
    requires n <= 0
    ensures Repeat(c, n) == "" && Repeat(c, n) + s == s && s + Repeat(c, n) == s
  {
  }

  /** Blanks on the left, zeros before the digits, blanks on the right. */
  function Padding(num: Long, base: nat, size: int, precision: int, flags: Flags): (nat, nat, nat)
    requires 2 <= base <= 36
  {
    var digits := |Numeral(Magnitude(num, flags), base, flags.large)|;
    var zeros := Max(0, precision - digits);
    var pad := Max(0, size - |SignText(num, flags)| - |Prefix(base, flags)| - digits - zeros);
    if flags.left then (0, zeros, pad) else if flags.zeropad then (0, pad + zeros, 0) else (pad, zeros, 0)
  }

  lemma LeftText(head: string, pad: int, zeros: int, digits: string)
    requires zeros >= 0
    ensures head + (Repeat('0', zeros) + digits) + Repeat(' ', pad) ==
            Repeat(' ', 0) + head + (Repeat('0', zeros) + digits) + Repeat(' ', Max(0, pad))
  {
    RepeatNone(' ', 0, head);
  }

  lemma ZeroText(head: string, pad: int, zeros: nat, digits: string)
    ensures head + Repeat('0', pad) + (Repeat('0', zeros) + digits) ==
            Repeat(' ', 0) + head + (Repeat('0', Max(0, pad) + zeros) + digits) + Repeat(' ', 0)
  {
    hide Repeat;
    var p: nat := Max(0, pad);
    assert Repeat('0', pad) == Repeat('0', p) by { if pad <= 0 { RepeatNone('0', pad, ""); RepeatNone('0', 0, ""); } }
    Repeats('0', p, zeros);
    RepeatNone(' ', 0, head);
    var all := head + (Repeat('0', p + zeros) + digits);
    RepeatNone(' ', 0, all);
    assert head + Repeat('0', p) + (Repeat('0', zeros) + digits) ==
           head + ((Repeat('0', p) + Repeat('0', zeros)) + digits);
  }

  lemma RightText(head: string, pad: int, zeros: nat, digits: string)
    ensures Repeat(' ', pad) + head + (Repeat('0', zeros) + digits) ==
            Repeat(' ', Max(0, pad)) + head + (Repeat('0', zeros) + digits) + Repeat(' ', 0)
  {
    var all := Repeat(' ', pad) + head + (Repeat('0', zeros) + digits);
    RepeatNone(' ', 0, all);
  }

  /** Whatever the flags, the field is blanks, sign and prefix, digits, blanks; and the digits, with all
      the zeros in front of them, read back as the magnitude of the number. */
  lemma NumberReadsBack(num: Long, base: nat, size: int, precision: int, flags: Flags)
    requires 2 <= base <= 36
    ensures var (l, z, r) := Padding(num, base, size, precision, flags);
            var digits := Repeat('0', z) + Numeral(Magnitude(num, flags), base, flags.large);
            && NumberText(num, base, size, precision, flags) ==
               Repeat(' ', l) + (SignText(num, flags) + Prefix(base, flags)) + digits + Repeat(' ', r)
            && ValueOf(digits, base) == Magnitude(num, flags)
  {
    hide ValueOf, NumberText, Padding, Repeat, Numeral;
    NumberArranged(num, base, size, precision, flags);
    NumeralReadsBack(Magnitude(num, flags), base, flags.large);
    ZerosReadAsNothing(Padding(num, base, size, precision, flags).1,
                       Numeral(Magnitude(num, flags), base, flags.large), base);
  }

  lemma NumberArranged(num: Long, base: nat, size: int, precision: int, flags: Flags)
    requires 2 <= base <= 36
    ensures var (l, z, r) := Padding(num, base, size, precision, flags);
            NumberText(num, base, size, precision, flags) ==
              Repeat(' ', l) + (SignText(num, flags) + Prefix(base, flags)) +
              (Repeat('0', z) + Numeral(Magnitude(num, flags), base, flags.large)) + Repeat(' ', r)
  {
    hide Numeral, Magnitude, SignText, Prefix, Repeat;
    var digits := Numeral(Magnitude(num, flags), base, flags.large);
    var head := SignText(num, flags) + Prefix(base, flags);
    var zeros: nat := Max(0, precision - |digits|);
    if precision <= |digits| { RepeatNone('0', precision - |digits|, ""); RepeatNone('0', 0, ""); }
    var pad := size - |head| - |Body(num, base, precision, flags)|;
    if flags.left {
      LeftText(head, pad, zeros, digits);
    } else if flags.zeropad {
      ZeroText(head, pad, zeros, digits);
    } else {
      RightText(head, pad, zeros, digits);
    }
  }

  // ---------------------------------------------------------------- what that text is

  /** A field taken apart: blanks, sign, prefix, digits with the zeros in front of them, blanks. */
  datatype Field = Field(left: nat, sign: string, prefix: string, digits: string, right: nat)

  function FieldText(f: Field): string {
    Repeat(' ', f.left) + (f.sign + f.prefix) + f.digits + Repeat(' ', f.right)
  }

  function FieldOf(num: Long, base: nat, size: int, precision: int, flags: Flags): Field
    requires 2 <= base <= 36
  {
    var (l, z, r) := Padding(num, base, size, precision, flags);
    Field(l, SignText(num, flags), Prefix(base, flags),
          Repeat('0', z) + Numeral(Magnitude(num, flags), base, flags.large), r)
  }

  lemma NumberIsField(num: Long, base: nat, size: int, precision: int, flags: Flags)
    requires 2 <= base <= 36
    ensures NumberText(num, base, size, precision, flags) == FieldText(FieldOf(num, base, size, precision, flags))
  {
    hide ValueOf, NumberText, Padding, Repeat, Numeral;
    NumberReadsBack(num, base, size, precision, flags);
  }

  /** The number a reader makes of it. */
  function Shown(f: Field, base: nat): int {
    if f.sign == "-" then -ValueOf(f.digits, base) else ValueOf(f.digits, base)
  }

  /** With the sign flag the number itself, and without it the number modulo 2^32. */
  lemma NumberValue(num: Long, base: nat, size: int, precision: int, flags: Flags)
    requires 2 <= base <= 36
    ensures Shown(FieldOf(num, base, size, precision, flags), base) == if flags.sign then num else num % TWO32
  {
    hide ValueOf, NumberText, Padding, Repeat, Numeral;
    NumberReadsBack(num, base, size, precision, flags);
  }

  /** What stands before the digits: the sign, and the prefix of the alternate form. */
  predicate Headed(f: Field, negative: bool, base: nat, flags: Flags) {
    && f.sign == (if flags.sign && negative then "-" else if flags.sign && flags.plus then "+"
                  else if flags.sign && flags.space then " " else "")
    && f.prefix == (if flags.special && base == 8 then "0"
                    else if flags.special && base == 16 then (if flags.large then "0X" else "0x") else "")
  }

  lemma NumberHead(num: Long, base: nat, size: int, precision: int, flags: Flags)
    requires 2 <= base <= 36
    ensures Headed(FieldOf(num, base, size, precision, flags), num < 0, base, flags)
  {
    hide Padding, Repeat, Numeral, Magnitude;
  }

  predicate DigitOf(c: char, base: nat, large: bool) {
    0 <= DigitValue(c) < base && if large then !('a' <= c <= 'z') else !('A' <= c <= 'Z')
  }

  lemma {:induction false} NumeralDigits(m: nat, base: nat, large: bool)
    requires 2 <= base <= 36
    ensures forall c <- Numeral(m, base, large) :: DigitOf(c, base, large)
  {
    hide DigitChar;
    if m < base {
      DigitCharIs(m, base, large);
    } else {
      QuotientAndRest(m, base);
      NumeralDigits(m / base, base, large);
      DigitCharIs(m % base, base, large);
    }
  }

  lemma DigitCharIs(d: nat, base: nat, large: bool)
    requires d < base <= 36
    ensures DigitOf(DigitChar(d, large), base, large)
  {
  }

  /** How a field is filled: digits of the base, in the case asked for, at least as many as the precision says;
      blanks on one side only, to the left of a right-justified and to the right of a left-justified number, and
      only up to the width; and zeros beyond the precision only under the zero flag, only if it is not
      left-justified, and only up to the width. */
  predicate Placed(f: Field, base: nat, size: int, precision: int, flags: Flags) {
    var length := |FieldText(f)|;
    && (forall c <- f.digits :: DigitOf(c, base, flags.large))
    && |f.digits| > 0 && |f.digits| >= precision && length >= size
    && (f.left > 0 ==> !flags.left && !flags.zeropad && length == size)
    && (f.right > 0 ==> flags.left && length == size)
    && (f.digits[0] == '0' && |f.digits| > 1 && |f.digits| > precision ==>
          flags.zeropad && !flags.left && length == size)
  }

  lemma NumberPlacing(num: Long, base: nat, size: int, precision: int, flags: Flags)
    requires 2 <= base <= 36
    ensures Placed(FieldOf(num, base, size, precision, flags), base, size, precision, flags)
  {
    var m := Magnitude(num, flags);
    var digits := Numeral(m, base, flags.large);
    var (l, z, r) := Padding(num, base, size, precision, flags);
    NumberIsField(num, base, size, precision, flags);
    NumberLength(num, base, size, precision, flags);
    NumeralDigits(m, base, flags.large);
    NoLeadingZero(m, base, flags.large);
    ZeroIsShort(m, base, flags.large);
    hide NumberText, Numeral, Magnitude, SignText, Prefix, DigitChar;
    ZeroIsDigit(base, flags.large);
    FirstOf(z, digits);
    forall c <- Repeat('0', z) + digits ensures DigitOf(c, base, flags.large) { assert c == '0' || c in digits; }
  }

  lemma ZeroIsDigit(base: nat, large: bool)
    requires base >= 2
    ensures DigitOf('0', base, large)
  {
  }

  lemma ZeroIsShort(m: nat, base: nat, large: bool)
    requires 2 <= base <= 36
    ensures m == 0 ==> |Numeral(m, base, large)| == 1
  {
  }

  lemma FirstOf(z: nat, digits: string)
    requires digits != ""
    ensures (Repeat('0', z) + digits)[0] == if z > 0 then '0' else digits[0]
  {
  }

  // ---------------------------------------------------------------- number

  function Reversed(s: seq<char>): seq<char> {
    if s == [] then [] else Reversed(s[1..]) + [s[0]]
  }

  lemma ReversedPrepend(s: seq<char>, c: char)
    ensures Reversed(s + [c]) == [c] + Reversed(s)
  {
    if s == [] {
    } else {
      assert (s + [c])[1..] == s[1..] + [c];
      ReversedPrepend(s[1..], c);
    }
  }

  /** The digits of a positive number, least significant first, below a part already produced. */
  ghost predicate Produced(rest: nat, done: seq<char>, m: nat, base: nat, large: bool)
    requires 2 <= base <= 36
  {
    (if rest == 0 then "" else Numeral(rest, base, large)) + Reversed(done) == Numeral(m, base, large)
  }

  lemma NumeralNext(n: nat, base: nat, large: bool)
    requires 2 <= base <= 36
    ensures Numeral(n, base, large) ==
            (if n / base == 0 then "" else Numeral(n / base, base, large)) + [DigitChar(n % base, large)]
  {
    hide DigitChar;
    if n < base { SmallDivision(n, base); } else { BigDivision(n, base); }
  }

  lemma ProduceNext(rest: nat, done: seq<char>, m: nat, base: nat, large: bool, q: nat, d: nat)
    requires 2 <= base <= 36 && rest > 0 && Produced(rest, done, m, base, large) && q == rest / base && d == rest % base
    ensures Produced(q, done + [DigitChar(d, large)], m, base, large)
  {
    hide DigitChar, Numeral;
    var c := DigitChar(d, large);
    ReversedPrepend(done, c);
    NumeralNext(rest, base, large);
    var high := if q == 0 then "" else Numeral(q, base, large);
    assert high + ([c] + Reversed(done)) == (high + [c]) + Reversed(done);
  }

  lemma SmallDivision(rest: nat, base: nat)
    requires rest < base
    ensures rest / base == 0 && rest % base == rest
  {
  }

  lemma BigDivision(rest: nat, base: nat)
    requires 0 < base <= rest
    ensures rest / base > 0
  {
  }

  lemma Pow2At32()
    ensures Pow2(32) == TWO32
  {
    assert Pow2(8) == 0x100;
    assert Pow2(16) == 0x1_0000;
    assert Pow2(24) == 0x100_0000;
  }

  /** The digit loop of `number`: `tmp` has room for 66 characters and needs at most 32. */
  method ProduceDigits(num: Long, base: nat, large: bool, tmp: array<char>) returns (i: nat)
    requires 2 <= base <= 36 && tmp.Length == 66
    modifies tmp
    ensures 0 < i <= 32
    ensures Reversed(tmp[..i]) == Numeral(Unsigned(num), base, large)
  {
    hide Numeral, DigitChar, Produced;
    ghost var m := Unsigned(num);
    Pow2At32();
    NumeralIsShort(m, base, large, 32);
    i := 0;
    var n: nat := Unsigned(num);
    if n == 0 {
      tmp[0] := '0';
      i := 1;
      ZeroNumeral(base, large);
      assert tmp[..1] == ['0'];
    } else {
      NothingProduced(m, base, large);
      while n != 0
        invariant i <= 32 && Produced(n, tmp[..i], m, base, large)
        decreases n
      {
        ProducedLength(n, tmp[..i], m, base, large);
        var q, d := Divide(n, base);
        ProduceNext(n, tmp[..i], m, base, large, q, d);
        ghost var done := tmp[..i];
        tmp[i] := DigitChar(d, large);
        assert tmp[..i + 1] == done + [DigitChar(d, large)];
        i := i + 1;
        n := q;
      }
      AllProduced(tmp[..i], m, base, large);
    }
  }

  /** `do_div`. */
  method Divide(n: nat, base: nat) returns (q: nat, d: nat)
    requires base >= 2
    ensures q == n / base && d == n % base && d < base
    ensures n > 0 ==> q < n
  {
    q, d := n / base, n % base;
    if n > 0 { DividesDown(n, base); }
  }

  lemma DividesDown(n: nat, base: nat)
    requires n > 0 && base >= 2
    ensures n / base < n
  {
    Halves(n, base);
  }

  lemma ZeroNumeral(base: nat, large: bool)
    requires 2 <= base <= 36
    ensures Reversed(['0']) == Numeral(0, base, large)
  {
    assert Reversed([]) == [];
    assert ['0'][1..] == [];
  }

  lemma NothingProduced(m: nat, base: nat, large: bool)
    requires 2 <= base <= 36 && m > 0
    ensures Produced(m, [], m, base, large)
  {
    hide Numeral;
    assert Numeral(m, base, large) + Reversed([]) == Numeral(m, base, large);
  }

  lemma AllProduced(done: seq<char>, m: nat, base: nat, large: bool)
    requires 2 <= base <= 36 && Produced(0, done, m, base, large)
    ensures Reversed(done) == Numeral(m, base, large) && |done| > 0
  {
    hide Numeral;
    ReversedLength(done);
    assert "" + Reversed(done) == Reversed(done);
  }

  lemma ReversedLength(s: seq<char>)
    ensures |Reversed(s)| == |s|
  {
  }

  lemma ProducedLength(rest: nat, done: seq<char>, m: nat, base: nat, large: bool)
    requires 2 <= base <= 36 && Produced(rest, done, m, base, large)
    ensures |done| <= |Numeral(m, base, large)| && (rest != 0 ==> |done| < |Numeral(m, base, large)|)
  {
    hide Numeral;
    ReversedLength(done);
  }

  lemma RepeatSnoc(c: char, n: nat)
    ensures Repeat(c, n + 1) == Repeat(c, n) + [c]
  {
  }

  /** A padding loop: `size` copies of a character, counting `size` down; it ends one below zero. */
  method Pad(str: string, size: int, c: char) returns (out: string, left: int)
    ensures out == str + Repeat(c, size)
    ensures left == if size > 0 then -1 else size - 1
  {
    hide Repeat;
    out, left := str, size;
    ghost var k: nat := 0;
    RepeatNone(c, 0, str);
    while left > 0
      invariant k + left == size || (k == 0 && left == size)
      invariant left >= 0 || k == 0
      invariant out == str + Repeat(c, k)
    {
      left := left - 1;
      RepeatSnoc(c, k);
      out := out + [c];
      k := k + 1;
    }
    left := left - 1;
    if size <= 0 { RepeatNone(c, size, str); }
  }

  lemma ReversedTake(s: seq<char>, k: nat)
    requires k < |s|
    ensures Reversed(s[..k + 1]) == [s[k]] + Reversed(s[..k])
  {
    assert s[..k + 1] == s[..k] + [s[k]];
    ReversedPrepend(s[..k], s[k]);
  }

  /** The last loop of `number`: the digits, from the one stored last to the first. */
  method EmitDigits(str: string, tmp: array<char>, n: nat) returns (out: string)
    requires n <= tmp.Length
    ensures out == str + Reversed(tmp[..n])
  {
    out := str;
    var i := n;
    while i > 0
      invariant 0 <= i <= n
      invariant out + Reversed(tmp[..i]) == str + Reversed(tmp[..n])
    {
      i := i - 1;
      ReversedTake(tmp[..], i);
      assert tmp[..][..i + 1] == tmp[..i + 1] && tmp[..][..i] == tmp[..i];
      assert out + ([tmp[i]] + Reversed(tmp[..i])) == (out + [tmp[i]]) + Reversed(tmp[..i]);
      out := out + [tmp[i]];
    }
    assert tmp[..0] == [];
    assert out + [] == out;
  }

  /** The order in which `number` emits its parts. */
  function Arranged(str: string, digits: string, base: nat, size: int, zeros: nat, sign: string, flags: Flags): string {
    str + (if !flags.zeropad && !flags.left then Repeat(' ', size) else "") + sign + Prefix(base, flags) +
    (if flags.zeropad && !flags.left then Repeat('0', size) else "") + Repeat('0', zeros) + digits +
    (if flags.left then Repeat(' ', size) else "")
  }

  /** The emitting half of `number`: padding, sign, prefix, padding, zeros, digits, padding. */
  method Emit(str: string, tmp: array<char>, i: nat, base: nat, size: int, precision: int, sign: string, flags: Flags)
    returns (out: string)
    requires i <= tmp.Length && precision >= i
    ensures out == Arranged(str, Reversed(tmp[..i]), base, size, precision - i, sign, flags)
  {
    hide Repeat, Reversed;
    var zeropad := flags.zeropad && !flags.left;
    var c := if zeropad then '0' else ' ';
    var left := size;
    out := str;
    if !zeropad && !flags.left {
      out, left := Pad(out, left, ' ');
    }
    ghost var a := if !flags.zeropad && !flags.left then Repeat(' ', size) else "";
    assert out == str + a;
    out := out + sign;
    if flags.special {
      if base == 8 {
        out := out + ['0'];
      } else if base == 16 {
        out := out + ['0'];
        out := out + [DigitChar(33, flags.large)];
      }
    }
    assert out == str + a + sign + Prefix(base, flags);
    ghost var before := out;
    if !flags.left {
      if left < 0 { RepeatNone(c, left, out); }
      out, left := Pad(out, left, c);
    }
    ghost var b := if flags.zeropad && !flags.left then Repeat('0', size) else "";
    assert out == before + b;
    var skip;
    out, skip := Pad(out, precision - i, '0');
    out := EmitDigits(out, tmp, i);
    before := out;
    if left < 0 { RepeatNone(' ', left, out); }
    out, left := Pad(out, left, ' ');
    if flags.left && size < 0 { RepeatNone(' ', size, out); }
    assert out == before + if flags.left then Repeat(' ', size) else "";
  }

  lemma ArrangedIsText(str: string, num: Long, base: nat, size: int, precision: int, flags: Flags)
    requires 2 <= base <= 36
    ensures var digits := Numeral(Magnitude(num, flags), base, flags.large);
            var sign := SignText(num, flags);
            var zeros: nat := Max(0, precision - |digits|);
            Arranged(str, digits, base, size - |sign| - |Prefix(base, flags)| - |digits| - zeros, zeros, sign, flags) ==
            str + NumberText(num, base, size, precision, flags)
  {
    hide Numeral, Magnitude, SignText, Prefix, Repeat;
    var digits := Numeral(Magnitude(num, flags), base, flags.large);
    var sign, prefix := SignText(num, flags), Prefix(base, flags);
    var zeros: nat := Max(0, precision - |digits|);
    if precision <= |digits| { RepeatNone('0', precision - |digits|, ""); RepeatNone('0', 0, ""); }
    var z := Repeat('0', zeros);
    assert Body(num, base, precision, flags) == z + digits;
    var pad := size - |sign| - |prefix| - |digits| - zeros;
    ArrangedParts(str, sign, prefix, z, digits, Repeat(' ', pad), Repeat('0', pad));
  }

  lemma ArrangedParts(str: string, sign: string, prefix: string, z: string, digits: string, blanks: string,
                      zeros: string)
    ensures str + "" + sign + prefix + "" + z + digits + blanks == str + ((sign + prefix) + (z + digits) + blanks)
    ensures str + "" + sign + prefix + zeros + z + digits + "" == str + ((sign + prefix) + zeros + (z + digits))
    ensures str + blanks + sign + prefix + "" + z + digits + "" == str + (blanks + (sign + prefix) + (z + digits))
  {
  }

  /** `number`, for every value, base, width, precision and set of flags. */
  method Number(str: string, num: Long, base: int, size: int, precision: int, flags: Flags) returns (r: Option<string>)
    ensures base < 2 || base > 36 ==> r == None
    ensures 2 <= base <= 36 ==> r == Some(str + NumberText(num, base, size, precision, flags))
  {
    hide Numeral, Reversed, Arranged, NumberText, Repeat;
    if base < 2 || base > 36 { return None; }
    var sign := "";
    var n: Long := num;
    var size' := size;
    if flags.sign {
      if num < 0 {
        sign := "-";
        n := ToLong(-(num as int));
        size' := size' - 1;
      } else if flags.plus {
        sign := "+";
        size' := size' - 1;
      } else if flags.space {
        sign := " ";
        size' := size' - 1;
      }
    }
    if flags.special {
      if base == 16 { size' := size' - 2; } else if base == 8 { size' := size' - 1; }
    }
    assert sign == SignText(num, flags);
    assert Unsigned(n) == Magnitude(num, flags);
    assert size' == size - |sign| - |Prefix(base, flags)|;
    var tmp := new char[66];
    var i := ProduceDigits(n, base, flags.large, tmp);
    ghost var digits := Numeral(Magnitude(num, flags), base, flags.large);
    ReversedLength(tmp[..i]);
    var precision' := if i > precision then i else precision;
    size' := size' - precision';
    var out := Emit(str, tmp, i, base, size', precision', sign, flags);
    ArrangedIsText(str, num, base, size, precision, flags);
    r := Some(out);
  }

  // ---------------------------------------------------------------- printdec

  /** The flag set SIGN alone. */
  const SIGNED := Flags(false, true, false, false, false, false, false)

  const POWERS: seq<int> := [1000000000, 100000000, 10000000, 1000000, 100000, 10000, 1000, 100, 10, 1, 0]

  /** Ten times the power at `div`. */
  function Above(div: nat): int
    requires div <= 10
  {
    if div == 0 then 10000000000 else POWERS[div - 1]
  }

  lemma PowersOfTen(div: nat)
    requires div <= 10
    ensures |POWERS| == 11 && (POWERS[div] == 0 <==> div == 10)
    ensures div < 10 ==> POWERS[div] > 0 && Above(div) == 10 * POWERS[div] && (POWERS[div] == 1 <==> div == 9)
    ensures div < 10 ==> Above(div + 1) == POWERS[div]
    ensures Above(0) == 10000000000 && Above(10) == 1
  {
  }

  /** The next decimal place of `m`. */
  lemma NextPlace(m: nat, d: nat, r: nat, rest: nat)
    requires d > 0 && rest < d && m % (10 * d) == r * d + rest
    ensures m / d == m / (10 * d) * 10 + r && m % d == rest && r < 10
  {
    var q := m / (10 * d);
    assert m == q * (10 * d) + m % (10 * d);
    assert m == (q * 10 + r) * d + rest;
    DivModUnique(m, d, q * 10 + r, rest);
    if r >= 10 { AtLeast(r - 9, d); }
  }

  /** The places of `m` above a power, without leading zeros. */
  function Places(high: nat): string { if high == 0 then "" else Numeral(high, 10, false) }

  lemma PlacesNext(high: nat, r: nat)
    requires r < 10
    ensures Places(high * 10 + r) == if high == 0 && r == 0 then "" else Places(high) + [DigitChar(r, false)]
    ensures Places(high) + [DigitChar(r, false)] == Numeral(high * 10 + r, 10, false)
  {
    hide DigitChar;
    var m := high * 10 + r;
    assert m / 10 == high && m % 10 == r;
    NumeralNext(m, 10, false);
    if high == 0 { assert "" + [DigitChar(r, false)] == [DigitChar(r, false)]; }
  }

  /** Counting how often `d` can be subtracted. */
  method Subtractions(n: Long, d: int) returns (r: int, rest: Long)
    requires d > 0
    ensures n < 0 ==> r == 0 && rest == n
    ensures n >= 0 ==> r >= 0 && 0 <= rest < d && n == r * d + rest
  {
    r, rest := 0, n;
    while rest >= d
      invariant n < 0 ==> r == 0 && rest == n
      invariant n >= 0 ==> r >= 0 && rest >= 0 && n == r * d + rest
      decreases rest
    {
      assert (r + 1) * d == r * d + d;
      r := r + 1;
      rest := rest - d;
    }
  }

  /** What `printdec` prints of a number that is not the minimum. */
  lemma PlainText(num: Long)
    requires num > -TWO31
    ensures var n: int := num;
            NumberText(num, 10, -1, -1, SIGNED) ==
            (if n < 0 then "-" else "") + Numeral(if n < 0 then -n else n, 10, false)
  {
    hide Numeral, Repeat;
    var n: int := num;
    var m := Magnitude(num, SIGNED);
    var digits := Numeral(m, 10, false);
    var head := SignText(num, SIGNED) + Prefix(10, SIGNED);
    RepeatNone('0', -1 - |digits|, digits);
    RepeatNone(' ', -1 - |head| - |digits|, head + digits);
    assert head == SignText(num, SIGNED);
  }

  /** The decimal printer by repeated subtraction prints what `number` prints in base 10, except for the
      minimum, whose negation is itself: that one comes out as "-0". */
  method PrintDec(num: Long) returns (out: string)
    ensures num > -TWO31 ==> out == NumberText(num, 10, -1, -1, SIGNED)
    ensures num == -TWO31 ==> out == "-0"
  {
    hide Numeral, POWERS, NumberText, DigitChar, Places, Above;
    if num > -TWO31 { PlainText(num); }
    out := "";
    var n: Long := num;
    if n < 0 {
      out := out + ['-'];
      n := ToLong(-(n as int));
    }
    ghost var m: nat := if num >= 0 then num else -(num as int);
    ghost var sign := out;
    var div, flag := 0, false;
    PowersOfTen(0);
    PlacesStart();
    assert sign == if num < 0 then "-" else "";
    assert m / Above(0) == 0 && m % Above(0) == m;
    assert sign + "" == sign;
    while POWERS[div] != 0
      invariant 0 <= div <= 10 == |POWERS| - 1
      invariant num == -TWO31 ==> n == num && (div < 10 ==> !flag && out == "-") && (div == 10 ==> out == "-0")
      invariant num > -TWO31 ==> PrintedSoFar(m, div, n, flag, sign, out)
      decreases 10 - div
    {
      PowersOfTen(div);
      PowersOfTen(div + 1);
      var d := POWERS[div];
      var r, rest := Subtractions(n, d);
      if num > -TWO31 { PrintNext(m, div, n, flag, sign, out, d, r, rest); }
      n := rest;
      if r != 0 || flag || d == 1 {
        out := out + [DigitChar(r, false)];
        flag := true;
      }
      div := div + 1;
    }
    PowersOfTen(div);
  }

  /** After `div` powers: what is printed, and what is left of `m`. */
  ghost predicate PrintedSoFar(m: nat, div: nat, n: int, flag: bool, sign: string, out: string)
    requires div <= 10
  {
    && Above(div) > 0
    && n == m % Above(div)
    && (div < 10 ==> (flag <==> m / Above(div) != 0) && out == sign + Places(m / Above(div)))
    && (div == 10 ==> out == sign + Numeral(m, 10, false))
  }

  lemma PrintNext(m: nat, div: nat, n: int, flag: bool, sign: string, out: string, d: int, r: int, rest: int)
    requires div < 10 && PrintedSoFar(m, div, n, flag, sign, out)
    requires d > 0 && Above(div) == 10 * d && Above(div + 1) == d && (d == 1 <==> div == 9)
    requires r >= 0 && 0 <= rest < d && n == r * d + rest
    ensures r < 10
    ensures if r != 0 || flag || d == 1 then PrintedSoFar(m, div + 1, rest, true, sign, out + [DigitChar(r, false)])
            else PrintedSoFar(m, div + 1, rest, flag, sign, out)
  {
    hide Numeral, DigitChar, Places, Above;
    NextPlace(m, d, r, rest);
    NextText(m, d, m / (10 * d), r, flag, sign, out);
  }

  /** What one more place does to the text. */
  lemma NextText(m: nat, d: nat, high: nat, r: nat, flag: bool, sign: string, out: string)
    requires d > 0 && r < 10 && m / d == high * 10 + r
    requires (flag <==> high != 0) && out == sign + Places(high)
    ensures m / d != 0 <==> r != 0 || flag
    ensures r != 0 || flag ==> out + [DigitChar(r, false)] == sign + Places(m / d)
    ensures r == 0 && !flag ==> out == sign + Places(m / d)
    ensures d == 1 ==> out + [DigitChar(r, false)] == sign + Numeral(m, 10, false)
  {
    hide Numeral, DigitChar, Places;
    PlacesNext(high, r);
    NoPlaces(high);
    NoPlaces(m / d);
    assert d == 1 ==> m / d == m;
    assert out + [DigitChar(r, false)] == sign + (Places(high) + [DigitChar(r, false)]);
  }

  lemma NoPlaces(high: nat)
    ensures Places(high) == "" <==> high == 0
  {
  }

  lemma PlacesStart()
    ensures Places(0) == "" && DigitChar(0, false) == '0'
  {
  }
}
