/** What a format of `vsprintf` (qi-usb-lcd/src/utils.c) means: directives as the manual writes them, read back
    by the scanner, and the text each conversion prints. */
module FormatMeaning {
  import opened Arithmetic
  import opened Numerals
  import opened Printf
  import opened FormatScanner

  // ---------------------------------------------------------------- directives as written

  /** A width or precision: not given, decimal digits, or a star, which takes the next argument. */
  datatype Count = Absent | Digits(digits: string) | Star

  /** A directive without its percent sign; `qualifier` is NUL if there is none. */
  datatype Spec = Spec(flags: string, width: Count, precision: Count, qualifier: char, conversion: char)

  const FLAG_CHARS := "-+ #0"
  const QUALIFIERS := "hlq"

  function CountText(c: Count): string {
    match c
    case Absent => ""
    case Digits(ds) => ds
    case Star => "*"
  }

  function PrecisionText(c: Count): string {
    if c.Absent? then "" else "." + CountText(c)
  }

  function Ending(s: Spec): string {
    (if s.qualifier == '\0' then "" else [s.qualifier]) + [s.conversion]
  }

  function Written(s: Spec): string {
    s.flags + (CountText(s.width) + (PrecisionText(s.precision) + Ending(s)))
  }

  predicate AllDigits(ds: string) {
    forall c <- ds :: IsDigit(c)
  }

  /** What may stand after a count without being read as part of it. */
  predicate AfterCount(c: Count, rest: string) {
    rest == "" ||
    match c
    case Absent => !IsDigit(rest[0]) && rest[0] != '*'
    case Digits(ds) => !IsDigit(rest[0]) && (ds == "" ==> rest[0] != '*')
    case Star => true
  }

  /** Flags in any order and number; a width that does not begin with the flag `0`; a precision whose digits may
      be missing after the dot; and any conversion character, unless it stands where it is read as more of what is
      before it. */
  predicate Grammatical(s: Spec) {
    && (forall c <- s.flags :: IsFlag(c))
    && (s.width.Digits? ==> s.width.digits != "" && AllDigits(s.width.digits) && s.width.digits[0] != '0')
    && (s.precision.Digits? ==> AllDigits(s.precision.digits))
    && (s.qualifier == '\0' || s.qualifier in QUALIFIERS)
    && (s.qualifier == '\0' ==> s.conversion !in QUALIFIERS && Apart(s))
  }

  predicate IsFlag(c: char) { c in FLAG_CHARS }

  /** The conversion character is none of those that the flags, the width or the precision could go on with. */
  predicate Apart(s: Spec) {
    if s.precision.Absent? then
      s.conversion != '.' && AfterCount(s.width, [s.conversion]) && (s.width.Absent? ==> !IsFlag(s.conversion))
    else AfterCount(s.precision, [s.conversion])
  }

  // ---------------------------------------------------------------- what they say

  function Negative(c: Count, args: seq<Arg>, k: nat): bool {
    c.Star? && IntArg(args, k) < 0
  }

  function FlagsSaid(s: Spec, args: seq<Arg>, k: nat): Flags {
    Flags('0' in s.flags, false, '+' in s.flags, ' ' in s.flags, '-' in s.flags || Negative(s.width, args, k),
          '#' in s.flags, false)
  }

  function WidthSaid(c: Count, args: seq<Arg>, k: nat): int {
    match c
    case Absent => -1
    case Digits(ds) => ValueOf(ds, 10)
    case Star => var w: int := IntArg(args, k); if w < 0 then -w else w
  }

  function PrecisionSaid(c: Count, args: seq<Arg>, k: nat): int {
    match c
    case Absent => -1
    case Digits(ds) => ValueOf(ds, 10)
    case Star => var p: int := IntArg(args, k); if p < 0 then 0 else p
  }

  function Uses(c: Count): nat {
    if c.Star? then 1 else 0
  }

  /** The directive with its numbers, for the arguments from `k` on; `rest` follows its conversion character. */
  function Said(s: Spec, rest: string, args: seq<Arg>, k: nat): Directive {
    Directive(FlagsSaid(s, args, k), WidthSaid(s.width, args, k), PrecisionSaid(s.precision, args, k + Uses(s.width)),
              s.qualifier, [s.conversion] + rest, Uses(s.width) + Uses(s.precision))
  }

  // ---------------------------------------------------------------- the scanner reads them back

  /** Flags already seen, and these. */
  function WithFlags(f: Flags, flags: string): Flags {
    Flags(f.zeropad || '0' in flags, f.sign, f.plus || '+' in flags, f.space || ' ' in flags,
          f.left || '-' in flags, f.special || '#' in flags, f.large)
  }

  lemma FlagsJoin(f: Flags, c: char, flags: string)
    ensures WithFlags(WithFlags(f, [c]), flags) == WithFlags(f, [c] + flags)
  {
    assert forall x :: x in [c] + flags <==> x in [c] || x in flags;
  }

  lemma OneFlag(c: char, tail: string, f: Flags)
    requires IsFlag(c)
    ensures TakeFlags([c] + tail, f) == TakeFlags(tail, WithFlags(f, [c]))
  {
    assert ([c] + tail)[1..] == tail;
  }

  lemma NoFlag(rest: string, f: Flags)
    requires rest == "" || !IsFlag(rest[0])
    ensures TakeFlags("" + rest, f) == (WithFlags(f, ""), rest)
  {
    assert "" + rest == rest;
  }

  lemma {:induction false} FlagsReadBack(flags: string, rest: string, f: Flags)
    requires forall c <- flags :: IsFlag(c)
    requires rest == "" || !IsFlag(rest[0])
    ensures TakeFlags(flags + rest, f) == (WithFlags(f, flags), rest)
    decreases |flags|
  {
    hide TakeFlags, WithFlags;
    if flags == "" {
      NoFlag(rest, f);
    } else {
      var c, tail := flags[0], flags[1..];
      assert flags == [c] + tail && c in flags;
      assert flags + rest == [c] + (tail + rest);
      OneFlag(c, tail + rest, f);
      FlagsReadBack(tail, rest, WithFlags(f, [c]));
      FlagsJoin(f, c, tail);
    }
  }

  /** Digits accumulated from the front have the value of the numeral. */
  lemma {:induction false} NumberReadsOn(seen: string, ds: string, rest: string)
    requires AllDigits(ds) && (rest == "" || !IsDigit(rest[0]))
    ensures TakeNumber(ds + rest, ValueOf(seen, 10)) == (ValueOf(seen + ds, 10), rest)
    decreases |ds|
  {
    hide ValueOf;
    if ds == "" {
      assert ds + rest == rest && seen + ds == seen;
    } else {
      var c := ds[0];
      assert IsDigit(c);
      assert (ds + rest)[0] == c && (ds + rest)[1..] == ds[1..] + rest;
      ValueOfSnoc(seen, c, 10);
      NumberReadsOn(seen + [c], ds[1..], rest);
      assert seen + [c] + ds[1..] == seen + ds;
    }
  }

  lemma NumberReads(ds: string, rest: string)
    requires AllDigits(ds) && (rest == "" || !IsDigit(rest[0]))
    ensures TakeNumber(ds + rest, 0) == (ValueOf(ds, 10), rest)
  {
    hide ValueOf, TakeNumber;
    NothingReadsZero(10);
    NumberReadsOn("", ds, rest);
    assert "" + ds == ds;
  }

  lemma {:induction false} DigitsNotNegative(ds: string)
    requires AllDigits(ds)
    ensures ValueOf(ds, 10) >= 0
  {
    if ds != "" {
      DigitsNotNegative(ds[..|ds| - 1]);
      assert IsDigit(ds[|ds| - 1]);
    }
  }

  lemma WidthReadsBack(c: Count, rest: string, f: Flags, args: seq<Arg>, k: nat)
    requires (c.Digits? ==> c.digits != "" && AllDigits(c.digits)) && AfterCount(c, rest)
    ensures TakeWidth(CountText(c) + rest, f, args, k) ==
            (if Negative(c, args, k) then f.(left := true) else f, WidthSaid(c, args, k), rest, Uses(c))
  {
    hide ValueOf, TakeNumber;
    match c
    case Absent => assert CountText(c) + rest == rest;
    case Digits(ds) =>
      NumberReads(ds, rest);
      assert (ds + rest)[0] == ds[0] && ds[0] in ds;
    case Star => assert ("*" + rest)[1..] == rest;
  }

  predicate AfterPrecision(c: Count, rest: string) {
    if c.Absent? then rest == "" || rest[0] != '.' else AfterCount(c, rest)
  }

  lemma PrecisionReadsBack(c: Count, rest: string, args: seq<Arg>, k: nat)
    requires (c.Digits? ==> AllDigits(c.digits)) && AfterPrecision(c, rest)
    ensures TakePrecision(PrecisionText(c) + rest, args, k) == (PrecisionSaid(c, args, k), rest, Uses(c))
  {
    hide ValueOf, TakeNumber;
    var f := PrecisionText(c) + rest;
    match c
    case Absent => assert f == rest;
    case Digits(ds) =>
      assert f[1..] == ds + rest;
      if ds == "" {
        assert ds + rest == rest;
        NothingReadsZero(10);
      } else {
        NumberReads(ds, rest);
        DigitsNotNegative(ds);
        assert (ds + rest)[0] == ds[0] && ds[0] in ds;
      }
    case Star => assert f[1..] == "*" + rest && ("*" + rest)[1..] == rest;
  }

  /** Nothing that follows in a directive is read as part of what precedes it. */
  lemma Heads(s: Spec, rest: string)
    requires Grammatical(s)
    ensures var ending := Ending(s) + rest; var precise := PrecisionText(s.precision) + ending;
            && AfterPrecision(s.precision, ending) && AfterCount(s.width, precise)
            && (CountText(s.width) + precise == "" || !IsFlag((CountText(s.width) + precise)[0]))
  {
    hide FLAG_CHARS;
    var ending := Ending(s) + rest;
    var precise := PrecisionText(s.precision) + ending;
    if s.precision.Absent? { assert precise == ending; }
    assert ending[0] == if s.qualifier == '\0' then s.conversion else s.qualifier;
    Qualifiers(ending[0]);
    Points();
    match s.width
    case Absent => assert CountText(s.width) + precise == precise;
    case Digits(ds) =>
      assert (ds + precise)[0] == ds[0] && ds[0] in ds;
      DigitNoFlag(ds[0]);
    case Star => assert ("*" + precise)[0] == '*';
  }

  lemma Qualifiers(c: char)
    ensures c in QUALIFIERS ==> !IsFlag(c) && !IsDigit(c) && c != '*' && c != '.'
  {
  }

  lemma Points()
    ensures !IsFlag('.') && !IsFlag('*') && !IsDigit('.')
  {
  }

  lemma DigitNoFlag(c: char)
    requires IsDigit(c) && c != '0'
    ensures !IsFlag(c)
  {
  }

  /** The parts of a directive, put together. */
  lemma ParseIs(f: string, flags0: Flags, f0: string, flags: Flags, width: int, f1: string, used1: nat,
                precision: int, f2: string, used2: nat, args: seq<Arg>, k: nat)
    requires TakeFlags(f, NO_FLAGS) == (flags0, f0)
    requires TakeWidth(f0, flags0, args, k) == (flags, width, f1, used1)
    requires TakePrecision(f1, args, k + used1) == (precision, f2, used2)
    ensures var (qualifier, rest) := FirstQualifier(f2);
            ParseDirective(f, args, k) == Directive(flags, width, precision, qualifier, rest, used1 + used2)
  {
    hide TakeFlags, TakeWidth, TakePrecision;
  }

  /** Round trip: any directive, written down and followed by any text, is read back as what it says, with the
      text left over; width and precision are the numbers their digits denote. */
  lemma DirectiveReadsBack(s: Spec, rest: string, args: seq<Arg>, k: nat)
    requires Grammatical(s)
    ensures ParseDirective(Written(s) + rest, args, k) == Said(s, rest, args, k)
  {
    hide TakeFlags, TakeWidth, TakePrecision, ParseDirective, CountText, PrecisionText, AfterCount, AfterPrecision,
         Grammatical, WidthSaid, PrecisionSaid, Negative, WithFlags;
    var ending := Ending(s) + rest;
    var precise := PrecisionText(s.precision) + ending;
    var wide := CountText(s.width) + precise;
    assert Written(s) + rest == s.flags + wide;
    Heads(s, rest);
    Parts(s);
    FlagsReadBack(s.flags, wide, NO_FLAGS);
    var flags := WithFlags(NO_FLAGS, s.flags);
    WidthReadsBack(s.width, precise, flags, args, k);
    PrecisionReadsBack(s.precision, ending, args, k + Uses(s.width));
    EndingReads(s, rest);
    FlagsAre(s, args, k);
    ParseIs(Written(s) + rest, flags, wide, FlagsSaid(s, args, k), WidthSaid(s.width, args, k), precise, Uses(s.width),
            PrecisionSaid(s.precision, args, k + Uses(s.width)), ending, Uses(s.precision), args, k);
  }

  lemma FlagsAre(s: Spec, args: seq<Arg>, k: nat)
    ensures var flags := WithFlags(NO_FLAGS, s.flags);
            FlagsSaid(s, args, k) == if Negative(s.width, args, k) then flags.(left := true) else flags
  {
  }

  lemma EndingReads(s: Spec, rest: string)
    requires Grammatical(s)
    ensures var e := Ending(s) + rest;
            if s.qualifier == '\0' then e == [s.conversion] + rest && e[0] !in QUALIFIERS
            else e[0] == s.qualifier && e[0] in QUALIFIERS && e[1..] == [s.conversion] + rest
  {
  }

  lemma Parts(s: Spec)
    requires Grammatical(s)
    ensures forall c <- s.flags :: IsFlag(c)
    ensures s.width.Digits? ==> s.width.digits != "" && AllDigits(s.width.digits)
    ensures s.precision.Digits? ==> AllDigits(s.precision.digits)
  {
  }

  /** One directive of a format. */
  lemma DirectiveStep(s: Spec, rest: string, args: seq<Arg>, k: nat, out: Output)
    requires Grammatical(s)
    ensures var d := Said(s, rest, args, k);
            var p := Convert(s.conversion, d, args, k + d.used, |out.text|);
            Format("%" + Written(s) + rest, args, k, out) ==
            Format(rest, args, k + d.used + p.used, Output(out.text + p.text, out.counts + p.counts))
  {
    hide ParseDirective, Convert, Written, Grammatical;
    var f := "%" + Written(s) + rest;
    assert f[1..] == Written(s) + rest && f[0] == '%';
    DirectiveReadsBack(s, rest, args, k);
    assert ([s.conversion] + rest)[1..] == rest;
  }

  // ---------------------------------------------------------------- one step for each conversion

  predicate IsInteger(c: char) {
    c in "diuoxX"
  }

  function BaseOf(c: char): (b: nat)
    requires IsInteger(c)
    ensures b == 8 || b == 10 || b == 16
  {
    if c == 'o' then 8 else if c == 'x' || c == 'X' then 16 else 10
  }

  /** `d`, `i`, `u`, `o`, `x` and `X`: the next argument, cut to the qualifier's width, as `number` prints it. */
  lemma IntegerStep(s: Spec, rest: string, args: seq<Arg>, k: nat, out: Output)
    requires Grammatical(s) && IsInteger(s.conversion)
    ensures var d := Said(s, rest, args, k);
            var signed := s.conversion == 'd' || s.conversion == 'i';
            var flags := d.flags.(sign := signed, large := s.conversion == 'X');
            var v := Narrow(IntArg(args, k + d.used), s.qualifier, signed);
            Format("%" + Written(s) + rest, args, k, out) ==
            Format(rest, args, k + d.used + 1, out.(text := out.text +
              NumberText(v, BaseOf(s.conversion), d.width, d.precision, flags)))
  {
    hide Format, Written, Grammatical, NumberText, WidthSaid, PrecisionSaid;
    DirectiveStep(s, rest, args, k, out);
    assert out.counts + [] == out.counts;
  }

  /** `s`: the string, cut to the precision, in its field. */
  lemma StringStep(s: Spec, rest: string, args: seq<Arg>, k: nat, out: Output)
    requires Grammatical(s) && s.conversion == 's'
    ensures var d := Said(s, rest, args, k);
            Format("%" + Written(s) + rest, args, k, out) ==
            Format(rest, args, k + d.used + 1, out.(text := out.text +
              StringText(StrArg(args, k + d.used), d.width, d.precision, d.flags.left)))
  {
    hide Format, Written, Grammatical, StringText, WidthSaid, PrecisionSaid;
    DirectiveStep(s, rest, args, k, out);
    assert out.counts + [] == out.counts;
  }

  /** `c`: one character in its field. */
  lemma CharStep(s: Spec, rest: string, args: seq<Arg>, k: nat, out: Output)
    requires Grammatical(s) && s.conversion == 'c'
    ensures var d := Said(s, rest, args, k);
            Format("%" + Written(s) + rest, args, k, out) ==
            Format(rest, args, k + d.used + 1, out.(text := out.text +
              Padded([ByteOf(IntArg(args, k + d.used))], d.width, d.flags.left)))
  {
    hide Format, Written, Grammatical, Padded, WidthSaid, PrecisionSaid;
    DirectiveStep(s, rest, args, k, out);
    assert out.counts + [] == out.counts;
  }

  /** `p`: the address in base 16; without a width, eight digits with leading zeros. */
  lemma PointerStep(s: Spec, rest: string, args: seq<Arg>, k: nat, out: Output)
    requires Grammatical(s) && s.conversion == 'p'
    ensures var d := Said(s, rest, args, k);
            var (width, flags) := if d.width == -1 then (8, d.flags.(zeropad := true)) else (d.width, d.flags);
            Format("%" + Written(s) + rest, args, k, out) ==
            Format(rest, args, k + d.used + 1, out.(text := out.text +
              NumberText(IntArg(args, k + d.used), 16, width, d.precision, flags)))
  {
    hide Format, Written, Grammatical, NumberText, WidthSaid, PrecisionSaid;
    DirectiveStep(s, rest, args, k, out);
    assert out.counts + [] == out.counts;
  }

  /** `n`: prints nothing and stores how much has been printed. */
  lemma CountStep(s: Spec, rest: string, args: seq<Arg>, k: nat, out: Output)
    requires Grammatical(s) && s.conversion == 'n'
    ensures var d := Said(s, rest, args, k);
            Format("%" + Written(s) + rest, args, k, out) ==
            Format(rest, args, k + d.used + 1, out.(counts := out.counts + [|out.text|]))
  {
    hide Format, Written, Grammatical, WidthSaid, PrecisionSaid;
    DirectiveStep(s, rest, args, k, out);
    assert out.text + "" == out.text;
  }

  /** `%` prints itself, and any other character itself after a percent sign; only the stars take arguments. */
  lemma OtherStep(s: Spec, rest: string, args: seq<Arg>, k: nat, out: Output)
    requires Grammatical(s) && !IsInteger(s.conversion) && s.conversion !in "scpn\0"
    ensures var d := Said(s, rest, args, k);
            Format("%" + Written(s) + rest, args, k, out) ==
            Format(rest, args, k + d.used, out.(text := out.text +
              if s.conversion == '%' then "%" else ['%', s.conversion]))
  {
    hide Format, Written, Grammatical, WidthSaid, PrecisionSaid;
    DirectiveStep(s, rest, args, k, out);
    assert out.counts + [] == out.counts;
  }

  // ---------------------------------------------------------------- the text printed

  /** A text in a field: blanks fill it up to the width, on the right if it is left-justified and else on the left. */
  predicate InField(text: string, t: string, width: int, left: bool) {
    && |text| == Max(width, |t|)
    && (if left then text[..|t|] == t else text[|text| - |t|..] == t)
    && forall i :: 0 <= i < |text| && (if left then i >= |t| else i < |text| - |t|) ==> text[i] == ' '
  }

  lemma PaddedIs(t: string, width: int, left: bool)
    ensures InField(Padded(t, width, left), t, width, left)
  {
  }

  /** What `s` prints: the string, or `<NULL>`, cut to the precision if one is given, in its field. */
  lemma StringPrinted(s: Spec, rest: string, args: seq<Arg>, k: nat, out: Output) returns (text: string)
    requires Grammatical(s) && s.conversion == 's'
    ensures var d := Said(s, rest, args, k);
            var arg := StrArg(args, k + d.used);
            var whole := if arg.None? then "<NULL>" else arg.value;
            && InField(text, if 0 <= d.precision < |whole| then whole[..d.precision] else whole, d.width, d.flags.left)
            && Format("%" + Written(s) + rest, args, k, out) ==
               Format(rest, args, k + d.used + 1, out.(text := out.text + text))
  {
    hide Format, Written, Grammatical, Padded, InField, WidthSaid, PrecisionSaid;
    var d := Said(s, rest, args, k);
    StringStep(s, rest, args, k, out);
    text := StringText(StrArg(args, k + d.used), d.width, d.precision, d.flags.left);
    var arg := StrArg(args, k + d.used);
    var whole := if arg.None? then "<NULL>" else arg.value;
    PaddedIs(if 0 <= d.precision < |whole| then whole[..d.precision] else whole, d.width, d.flags.left);
  }

  /** What `c` prints: the character of the argument's low eight bits, in its field. */
  lemma CharPrinted(s: Spec, rest: string, args: seq<Arg>, k: nat, out: Output) returns (text: string, c: char)
    requires Grammatical(s) && s.conversion == 'c'
    ensures var d := Said(s, rest, args, k);
            && c as int == IntArg(args, k + d.used) % 256 && InField(text, [c], d.width, d.flags.left)
            && Format("%" + Written(s) + rest, args, k, out) ==
               Format(rest, args, k + d.used + 1, out.(text := out.text + text))
  {
    hide Format, Written, Grammatical, Padded, InField, WidthSaid, PrecisionSaid;
    var d := Said(s, rest, args, k);
    CharStep(s, rest, args, k, out);
    c := ByteOf(IntArg(args, k + d.used));
    text := Padded([c], d.width, d.flags.left);
    PaddedIs([c], d.width, d.flags.left);
  }

  /** The integer a conversion is to show: the argument, or its low 16 bits under `h`, with its sign for the signed
      conversions and modulo 2^32 for the others. */
  predicate Asked(shown: int, arg: Long, qualifier: char, signed: bool) {
    if qualifier == 'h' then
      (shown - arg) % 0x1_0000 == 0 && if signed then -0x8000 <= shown < 0x8000 else 0 <= shown < 0x1_0000
    else if signed then shown == arg
    else shown == arg % TWO32
  }

  lemma NarrowIs(arg: Long, qualifier: char, signed: bool)
    ensures var v := Narrow(arg, qualifier, signed); Asked(if signed then v else v % TWO32, arg, qualifier, signed)
  {
  }

  /** What the integer conversions print: a field whose digits show the number asked for, signed for `d` and `i` only,
      with sign, prefix, width and precision as asked for. */
  lemma IntegerPrinted(s: Spec, rest: string, args: seq<Arg>, k: nat, out: Output) returns (f: Field)
    requires Grammatical(s) && IsInteger(s.conversion)
    ensures var d := Said(s, rest, args, k);
            var signed := s.conversion == 'd' || s.conversion == 'i';
            var flags := d.flags.(sign := signed, large := s.conversion == 'X');
            var base := BaseOf(s.conversion);
            && Asked(Shown(f, base), IntArg(args, k + d.used), s.qualifier, signed)
            && Headed(f, Shown(f, base) < 0, base, flags) && Placed(f, base, d.width, d.precision, flags)
            && Format("%" + Written(s) + rest, args, k, out) ==
               Format(rest, args, k + d.used + 1, out.(text := out.text + FieldText(f)))
  {
    hide Format, Written, Grammatical, NumberText, FieldText, Headed, Placed, Shown, FieldOf, Narrow, Asked, WidthSaid,
         PrecisionSaid;
    var d := Said(s, rest, args, k);
    var signed := s.conversion == 'd' || s.conversion == 'i';
    var flags := d.flags.(sign := signed, large := s.conversion == 'X');
    var base := BaseOf(s.conversion);
    var v := Narrow(IntArg(args, k + d.used), s.qualifier, signed);
    IntegerStep(s, rest, args, k, out);
    f := FieldOf(v, base, d.width, d.precision, flags);
    NarrowIs(IntArg(args, k + d.used), s.qualifier, signed);
    NumberIsField(v, base, d.width, d.precision, flags);
    NumberValue(v, base, d.width, d.precision, flags);
    NumberHead(v, base, d.width, d.precision, flags);
    NumberPlacing(v, base, d.width, d.precision, flags);
    if !signed { UnsignedHead(f, v < 0, Shown(f, base) < 0, base, flags); }
  }

  /** What `p` prints: the address modulo 2^32 in base 16, and without a width eight places filled with zeros. */
  lemma PointerPrinted(s: Spec, rest: string, args: seq<Arg>, k: nat, out: Output) returns (f: Field)
    requires Grammatical(s) && s.conversion == 'p'
    ensures var d := Said(s, rest, args, k);
            var (width, flags) := if d.width == -1 then (8, d.flags.(zeropad := true)) else (d.width, d.flags);
            && Shown(f, 16) == IntArg(args, k + d.used) % TWO32
            && Headed(f, false, 16, flags) && Placed(f, 16, width, d.precision, flags)
            && Format("%" + Written(s) + rest, args, k, out) ==
               Format(rest, args, k + d.used + 1, out.(text := out.text + FieldText(f)))
  {
    hide Format, Written, Grammatical, NumberText, FieldText, Headed, Placed, Shown, FieldOf, WidthSaid, PrecisionSaid;
    var d := Said(s, rest, args, k);
    var (width, flags) := if d.width == -1 then (8, d.flags.(zeropad := true)) else (d.width, d.flags);
    var v := IntArg(args, k + d.used);
    PointerStep(s, rest, args, k, out);
    f := FieldOf(v, 16, width, d.precision, flags);
    NumberIsField(v, 16, width, d.precision, flags);
    NumberValue(v, 16, width, d.precision, flags);
    NumberHead(v, 16, width, d.precision, flags);
    NumberPlacing(v, 16, width, d.precision, flags);
    UnsignedHead(f, v < 0, false, 16, flags);
  }

  lemma UnsignedHead(f: Field, a: bool, b: bool, base: nat, flags: Flags)
    requires !flags.sign && Headed(f, a, base, flags)
    ensures Headed(f, b, base, flags)
  {
  }

  // ---------------------------------------------------------------- taking a directive apart

  /** How many characters at the beginning are of one kind. */
  function Span(f: string, kind: char -> bool): (n: nat)
    ensures n <= |f| && (forall i :: 0 <= i < n ==> kind(f[i])) && (n < |f| ==> !kind(f[n]))
  {
    if f != "" && kind(f[0]) then 1 + Span(f[1..], kind) else 0
  }

  function FirstCount(f: string): (Count, string) {
    if f != "" && IsDigit(f[0]) then (Digits(f[..Span(f, IsDigit)]), f[Span(f, IsDigit)..])
    else if f != "" && f[0] == '*' then (Star, f[1..])
    else (Absent, f)
  }

  function FirstPrecision(f: string): (Count, string) {
    if f == "" || f[0] != '.' then (Absent, f) else
      var (c, rest) := FirstCount(f[1..]);
      (if c.Absent? then Digits("") else c, rest)
  }

  function FirstQualifier(f: string): (char, string) {
    if f != "" && f[0] in QUALIFIERS then (f[0], f[1..]) else ('\0', f)
  }

  /** The directive at the beginning of a text and what follows it, unless the text ends first. */
  function FirstSpec(f: string): Option<(Spec, string)> {
    var flags := Span(f, IsFlag);
    var (width, f1) := FirstCount(f[flags..]);
    var (precision, f2) := FirstPrecision(f1);
    var (qualifier, f3) := FirstQualifier(f2);
    if f3 == "" then None else Some((Spec(f[..flags], width, precision, qualifier, f3[0]), f3[1..]))
  }

  lemma CountTaken(f: string)
    ensures var (c, rest) := FirstCount(f);
            && f == CountText(c) + rest && AfterCount(c, rest)
            && (c.Digits? ==> c.digits != "" && AllDigits(c.digits) && c.digits[0] == f[0])
  {
    var (c, rest) := FirstCount(f);
    if c.Digits? {
      forall x <- c.digits ensures IsDigit(x) {
        var i :| 0 <= i < |c.digits| && c.digits[i] == x;
        assert f[i] == x;
      }
    }
  }

  lemma PrecisionTaken(f: string)
    ensures var (c, rest) := FirstPrecision(f);
            && f == PrecisionText(c) + rest && AfterPrecision(c, rest) && (c.Digits? ==> AllDigits(c.digits))
  {
    hide FirstCount;
    if f != "" && f[0] == '.' {
      CountTaken(f[1..]);
      assert f == "." + f[1..];
    }
  }

  lemma FlagsTaken(f: string)
    ensures var n := Span(f, IsFlag);
            f == f[..n] + f[n..] && (forall c <- f[..n] :: IsFlag(c)) && (f[n..] == "" || !IsFlag(f[n..][0]))
  {
  }

  /** A directive taken off a text is one of the grammar, and nothing is lost. */
  lemma SpecTaken(f: string)
    requires FirstSpec(f).Some?
    ensures var (s, rest) := FirstSpec(f).value; Grammatical(s) && f == Written(s) + rest
  {
    hide Span, FirstCount, FirstPrecision, AfterCount;
    var flags := Span(f, IsFlag);
    var (width, f1) := FirstCount(f[flags..]);
    var (precision, f2) := FirstPrecision(f1);
    var (s, rest) := FirstSpec(f).value;
    FlagsTaken(f);
    CountTaken(f[flags..]);
    PrecisionTaken(f1);
    assert f2 == Ending(s) + rest;
    Rejoined(s, rest);
    if s.qualifier == '\0' { TakenApart(s, rest, f[flags..], f1, f2); }
  }

  lemma TakenApart(s: Spec, rest: string, f0: string, f1: string, f2: string)
    requires f2 == [s.conversion] + rest && f1 == PrecisionText(s.precision) + f2 && f0 == CountText(s.width) + f1
    requires !IsFlag(f0[0]) && AfterCount(s.width, f1) && AfterPrecision(s.precision, f2)
    ensures Apart(s)
  {
    hide AfterCount;
    AfterOne(s.width, s.conversion, rest);
    AfterOne(s.precision, s.conversion, rest);
    if s.precision.Absent? { assert f1 == f2; }
    if s.width.Absent? { assert f0 == f1; }
  }

  lemma Rejoined(s: Spec, rest: string)
    ensures s.flags + (CountText(s.width) + (PrecisionText(s.precision) + (Ending(s) + rest))) == Written(s) + rest
  {
  }

  lemma AfterOne(c: Count, x: char, rest: string)
    ensures AfterCount(c, [x] + rest) <==> AfterCount(c, [x])
  {
  }

  /** A text that ends inside a directive: the scanner reaches the end. */
  lemma ScannerReachesEnd(f: string, args: seq<Arg>, k: nat)
    requires FirstSpec(f).None?
    ensures ParseDirective(f, args, k).rest == ""
  {
    hide Span, FirstCount, FirstPrecision, FirstQualifier, AfterCount, AfterPrecision, TakeFlags, TakeWidth,
         TakePrecision, WidthSaid, PrecisionSaid, Negative, ParseDirective, CountText, PrecisionText, WithFlags;
    var flags := Span(f, IsFlag);
    var (width, f1) := FirstCount(f[flags..]);
    var (precision, f2) := FirstPrecision(f1);
    FlagsTaken(f);
    CountTaken(f[flags..]);
    PrecisionTaken(f1);
    FlagsReadBack(f[..flags], f[flags..], NO_FLAGS);
    var said := WithFlags(NO_FLAGS, f[..flags]);
    WidthReadsBack(width, f1, said, args, k);
    PrecisionReadsBack(precision, f2, args, k + Uses(width));
    ParseIs(f, said, f[flags..], if Negative(width, args, k) then said.(left := true) else said,
            WidthSaid(width, args, k), f1, Uses(width), PrecisionSaid(precision, args, k + Uses(width)), f2,
            Uses(precision), args, k);
  }

  lemma {:induction false} SpanIs(a: string, b: string, kind: char -> bool)
    requires (forall c <- a :: kind(c)) && (b == "" || !kind(b[0]))
    ensures Span(a + b, kind) == |a|
  {
    if a == "" {
      assert a + b == b;
    } else {
      assert (a + b)[1..] == a[1..] + b && a[0] in a;
      SpanIs(a[1..], b, kind);
    }
  }

  lemma CountIs(c: Count, rest: string)
    requires (c.Digits? ==> c.digits != "" && AllDigits(c.digits)) && AfterCount(c, rest)
    ensures FirstCount(CountText(c) + rest) == (c, rest)
  {
    match c
    case Absent => assert CountText(c) + rest == rest;
    case Digits(ds) =>
      assert (ds + rest)[0] == ds[0] && ds[0] in ds;
      SpanIs(ds, rest, IsDigit);
    case Star => assert ("*" + rest)[1..] == rest;
  }

  lemma PrecisionIs(c: Count, rest: string)
    requires (c.Digits? ==> AllDigits(c.digits)) && AfterPrecision(c, rest)
    ensures FirstPrecision(PrecisionText(c) + rest) == (c, rest)
  {
    hide FirstCount;
    var f := PrecisionText(c) + rest;
    if c.Absent? {
      assert f == rest;
    } else if c == Digits("") {
      assert f[1..] == CountText(Absent) + rest == rest;
      CountIs(Absent, rest);
    } else {
      assert f[1..] == CountText(c) + rest;
      CountIs(c, rest);
    }
  }

  /** There is only one way to take a directive apart. */
  lemma SpecIs(s: Spec, rest: string)
    requires Grammatical(s)
    ensures FirstSpec(Written(s) + rest) == Some((s, rest))
  {
    hide Span, FirstCount, FirstPrecision, CountText, PrecisionText, AfterCount, AfterPrecision, Grammatical;
    var ending := Ending(s) + rest;
    var precise := PrecisionText(s.precision) + ending;
    var wide := CountText(s.width) + precise;
    var f := Written(s) + rest;
    Rejoined(s, rest);
    Heads(s, rest);
    Parts(s);
    SpanIs(s.flags, wide, IsFlag);
    assert f[..|s.flags|] == s.flags && f[|s.flags|..] == wide;
    CountIs(s.width, precise);
    PrecisionIs(s.precision, ending);
    EndingReads(s, rest);
  }

  // ---------------------------------------------------------------- whole formats

  /** A format is a list of characters and directives. */
  datatype Element = Plain(c: char) | Directed(spec: Spec)

  predicate Good(e: Element) {
    match e case Plain(c) => c != '%' case Directed(s) => Grammatical(s)
  }

  predicate Sensible(es: seq<Element>) {
    forall e <- es :: Good(e)
  }

  function ElementText(e: Element): string {
    match e case Plain(c) => [c] case Directed(s) => "%" + Written(s)
  }

  function FormatText(es: seq<Element>): string {
    if es == [] then "" else ElementText(es[0]) + FormatText(es[1..])
  }

  /** The end of a format: nothing more, or a percent sign with a directive that is not complete. */
  predicate IsEnd(tail: string) {
    tail == "" || (tail[0] == '%' && FirstSpec(tail[1..]).None?)
  }

  /** The elements of a format, and its end. */
  function Elements(f: string): (seq<Element>, string)
    decreases |f|
  {
    if f == "" then ([], "")
    else if f[0] != '%' then
      var (es, tail) := Elements(f[1..]);
      ([Plain(f[0])] + es, tail)
    else
      match FirstSpec(f[1..])
      case None => ([], f)
      case Some((s, rest)) =>
        SpecTaken(f[1..]);
        var (es, tail) := Elements(rest);
        ([Directed(s)] + es, tail)
  }

  lemma Prepended(e: Element, es: seq<Element>, tail: string)
    requires Good(e) && Sensible(es)
    ensures Sensible([e] + es)
    ensures FormatText([e] + es) + tail == ElementText(e) + (FormatText(es) + tail)
  {
    hide Good, ElementText;
    assert ([e] + es)[1..] == es;
    Onwards(ElementText(e), FormatText(es), tail);
  }

  lemma Onwards(a: string, b: string, c: string)
    ensures a + b + c == a + (b + c)
  {
  }

  /** Every format is made of them. */
  lemma {:induction false} EveryFormat(f: string)
    ensures var (es, tail) := Elements(f); Sensible(es) && f == FormatText(es) + tail && IsEnd(tail)
    decreases |f|
  {
    hide Written, FirstSpec, Grammatical, Sensible, FormatText, IsEnd;
    if f == "" || (f[0] == '%' && FirstSpec(f[1..]).None?) {
      IsEndOf(f);
      EndOnly(f);
    } else if f[0] != '%' {
      EveryFormat(f[1..]);
      var (es, tail) := Elements(f[1..]);
      Prepended(Plain(f[0]), es, tail);
    } else {
      SpecTaken(f[1..]);
      var (s, rest) := FirstSpec(f[1..]).value;
      EveryFormat(rest);
      var (es, tail) := Elements(rest);
      Prepended(Directed(s), es, tail);
      assert f == "%" + f[1..] == "%" + Written(s) + rest;
    }
  }

  lemma IsEndOf(f: string)
    requires f == "" || (f[0] == '%' && FirstSpec(f[1..]).None?)
    ensures IsEnd(f)
  {
    hide FirstSpec;
  }

  lemma EndOnly(f: string)
    requires IsEnd(f)
    ensures Sensible([]) && f == FormatText([]) + f
  {
  }

  lemma FirstElement(e: Element, rest: string)
    requires Good(e)
    ensures var (es, tail) := Elements(rest); Elements(ElementText(e) + rest) == ([e] + es, tail)
  {
    hide FirstSpec, Written, Grammatical;
    var f := ElementText(e) + rest;
    match e
    case Plain(c) => assert f[1..] == rest;
    case Directed(s) =>
      assert f[1..] == Written(s) + rest;
      SpecIs(s, rest);
  }

  lemma NoElements(tail: string)
    requires IsEnd(tail)
    ensures Elements("" + tail) == ([], tail)
  {
    hide FirstSpec;
    assert "" + tail == tail;
  }

  /** In one way only. */
  lemma {:induction false} ElementsAre(es: seq<Element>, tail: string)
    requires Sensible(es) && IsEnd(tail)
    ensures Elements(FormatText(es) + tail) == (es, tail)
    decreases |es|
  {
    hide ElementText, Good, Elements, IsEnd;
    if es == [] {
      NoElements(tail);
    } else {
      assert es[0] in es && es == [es[0]] + es[1..] && forall e <- es[1..] :: e in es;
      ElementsAre(es[1..], tail);
      FirstElement(es[0], FormatText(es[1..]) + tail);
      Onwards(ElementText(es[0]), FormatText(es[1..]), tail);
    }
  }

  /** What such a list prints: its elements one after the other, each taking its own arguments. */
  function Meaning(es: seq<Element>, args: seq<Arg>, k: nat, out: Output): Output
    decreases |es|
  {
    if es == [] then out else
      match es[0]
      case Plain(c) => Meaning(es[1..], args, k, out.(text := out.text + [c]))
      case Directed(s) =>
        var d := Said(s, "", args, k);
        var p := Convert(s.conversion, d, args, k + d.used, |out.text|);
        Meaning(es[1..], args, k + d.used + p.used, Output(out.text + p.text, out.counts + p.counts))
  }

  /** What a conversion prints does not depend on what follows it. */
  lemma ConvertAlone(s: Spec, rest: string, args: seq<Arg>, k: nat, i: nat, len: nat)
    ensures var d, e := Said(s, "", args, k), Said(s, rest, args, k);
            d.used == e.used && Convert(s.conversion, d, args, i, len) == Convert(s.conversion, e, args, i, len)
  {
    hide NumberText, StringText, Padded, WidthSaid, PrecisionSaid;
  }

  /** A directive that is not complete prints its percent sign. */
  function Ended(tail: string, out: Output): Output {
    if tail == "" then out else out.(text := out.text + "%")
  }

  lemma EndPrints(tail: string, args: seq<Arg>, k: nat, out: Output)
    requires IsEnd(tail)
    ensures Format(tail, args, k, out) == Ended(tail, out)
  {
    hide Format, FirstSpec, ParseDirective;
    if tail == "" {
      FormatDone(args, k, out);
    } else {
      ScannerReachesEnd(tail[1..], args, k);
      TruncatedDirective(tail, args, k, out);
    }
  }

  /** A format prints its elements: however it is put together from characters and directives, none of them is
      read as part of another. */
  lemma {:induction false} FormatMeans(es: seq<Element>, tail: string, args: seq<Arg>, k: nat, out: Output)
    requires Sensible(es) && IsEnd(tail)
    ensures Format(FormatText(es) + tail, args, k, out) == Ended(tail, Meaning(es, args, k, out))
    decreases |es|
  {
    hide Format, Convert, Said, Written, Grammatical, IsEnd, Ended;
    var f := FormatText(es) + tail;
    if es == [] {
      assert f == tail;
      EndPrints(tail, args, k, out);
    } else {
      var rest := FormatText(es[1..]) + tail;
      assert es[0] in es && forall e <- es[1..] :: e in es;
      match es[0]
      case Plain(c) =>
        assert f == [c] + rest;
        FormatPlain(c, rest, args, k, out);
        FormatMeans(es[1..], tail, args, k, out.(text := out.text + [c]));
      case Directed(s) =>
        assert f == "%" + Written(s) + rest;
        DirectiveStep(s, rest, args, k, out);
        var d := Said(s, "", args, k);
        ConvertAlone(s, rest, args, k, k + d.used, |out.text|);
        var p := Convert(s.conversion, d, args, k + d.used, |out.text|);
        FormatMeans(es[1..], tail, args, k + d.used + p.used, Output(out.text + p.text, out.counts + p.counts));
    }
  }

  /** So every format does. */
  lemma EveryFormatMeans(f: string, args: seq<Arg>)
    ensures var (es, tail) := Elements(f);
            Sensible(es) && f == FormatText(es) + tail &&
            Format(f, args, 0, Output("", [])) == Ended(tail, Meaning(es, args, 0, Output("", [])))
  {
    hide Format, Meaning, Ended, Sensible, FormatText, IsEnd;
    EveryFormat(f);
    FormatMeans(Elements(f).0, Elements(f).1, args, 0, Output("", []));
  }
}
