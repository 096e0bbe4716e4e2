/** The PowerPC assembler, disassembler and single-stepper (u-boot/common/bedbug.c), at the level of
    instruction words and operand fields. */
module Bedbug {
  import opened Arithmetic
  import opened BitVectors
  import opened Numerals
  import opened PowerPcTables
  import opened SpecialRegisters
  import opened OperandFields
  import opened Branches

  // ---------------------------------------------------------------- find_opcode

  predicate Matches(e: Entry, instr: Word) { And(instr, e.form.mask) == e.opcode }

  predicate ComparesLow(e: Entry, instr: Word) { Value(And(instr, e.form.mask)) < Value(e.opcode) }

  predicate ComparesHigh(e: Entry, instr: Word) { Value(And(instr, e.form.mask)) > Value(e.opcode) }

  /** Row `j` matches, every row before it sends the search up, and every row after it sends it down. */
  ghost predicate Pinned(t: seq<Entry>, instr: Word, j: nat) {
    && j < |t| && Matches(t[j], instr)
    && (forall i :: 0 <= i < j ==> ComparesHigh(t[i], instr))
    && (forall i :: j < i < |t| ==> ComparesLow(t[i], instr))
  }

  lemma OneComparison(e: Entry, instr: Word)
    ensures Matches(e, instr) <==> !ComparesLow(e, instr) && !ComparesHigh(e, instr)
    ensures !(ComparesLow(e, instr) && ComparesHigh(e, instr))
  {
    hide Value, And;
    if Value(And(instr, e.form.mask)) == Value(e.opcode) { ValueInjective(And(instr, e.form.mask), e.opcode); }
  }

  /** Binary search over a table whose rows each compare under their own mask.  On any table it finds
      only matching rows, and it finds a row that is pinned. */
  method FindOpcode(t: seq<Entry>, instr: Word) returns (r: Option<nat>)
    ensures r.Some? ==> r.value < |t| && Matches(t[r.value], instr)
    ensures forall j: nat :: Pinned(t, instr, j) ==> r == Some(j)
  {
    hide Matches, ComparesLow, ComparesHigh;
    var top, bottom := 0, |t| - 1;
    while top <= bottom
      invariant 0 <= top <= bottom + 1 <= |t|
      invariant forall j: nat :: Pinned(t, instr, j) ==> top <= j <= bottom
    {
      var idx := (top + bottom) / 2;
      OneComparison(t[idx], instr);
      if ComparesLow(t[idx], instr) {
        bottom := idx - 1;
      } else if ComparesHigh(t[idx], instr) {
        top := idx + 1;
      } else {
        return Some(idx);
      }
    }
    return None;
  }

  lemma BeforeTransitive(a: Row, b: Row, c: Row)
    requires Before(a, b) && Before(b, c)
    ensures Before(a, c)
  {
    hide Primary, Value;
    PrimaryLeads(a.opcode, b.opcode);
    PrimaryLeads(b.opcode, c.opcode);
  }

  lemma {:induction false} SortedBefore(t: seq<Row>, i: nat, j: nat)
    requires Sorted(t) && i < j < |t|
    ensures Before(t[i], t[j])
  {
    hide Before;
    assert Before(t[j - 1], t[j - 1 + 1]);
    if i < j - 1 {
      SortedBefore(t, i, j - 1);
      BeforeTransitive(t[i], t[j - 1], t[j]);
    }
  }

  lemma SeparateWords(o: Word, o': Word, x: Word, x': Word)
    requires Primary(x) == Primary(x') && x' == o'
    requires Primary(o) == Primary(o') ==> x == x'
    ensures Value(o) < Value(o') ==> Value(x) > Value(o)
    ensures Value(o') < Value(o) ==> Value(x) < Value(o)
  {
    hide Primary, Value;
    PrimaryLeads(o, o');
    PrimaryLeads(o', o);
    PrimaryLeads(x, o);
    PrimaryLeads(o, x);
  }

  /** An instruction that matches row `b` compares high against every row before it and low against every
      row after it, under whatever mask that row has. */
  lemma Separates(a: Row, b: Row, instr: Word)
    ensures Before(a, b) && Matches(b, instr) ==> ComparesHigh(a, instr)
    ensures Before(b, a) && Matches(b, instr) ==> ComparesLow(a, instr)
  {
    hide Primary, Within, Value, And, Fit, UsedBy, Join;
    MaskKeepsPrimary(instr, a.form.mask);
    MaskKeepsPrimary(instr, b.form.mask);
    if Matches(b, instr) && (Before(a, b) || Before(b, a)) {
      SeparateWords(a.opcode, b.opcode, And(instr, a.form.mask), And(instr, b.form.mask));
    }
  }

  /** In a sorted table a matching row is pinned. */
  lemma SortedPins(t: seq<Row>, instr: Word, j: nat)
    requires Sorted(t) && j < |t| && Matches(t[j], instr)
    ensures Pinned(t, instr, j)
  {
    hide Before, ComparesHigh, ComparesLow, Matches;
    forall i | 0 <= i < j ensures ComparesHigh(t[i], instr) {
      SortedBefore(t, i, j);
      Separates(t[i], t[j], instr);
    }
    forall i | j < i < |t| ensures ComparesLow(t[i], instr) {
      SortedBefore(t, j, i);
      Separates(t[i], t[j], instr);
    }
  }

  /** On a sorted table, such as the one of the source, the search is complete: it returns the row that
      matches, and none exactly when none does. */
  method FindRow(t: seq<Row>, instr: Word) returns (r: Option<nat>)
    requires Sorted(t)
    ensures r.Some? ==> r.value < |t| && Matches(t[r.value], instr)
    ensures forall j :: 0 <= j < |t| && Matches(t[j], instr) ==> r == Some(j)
  {
    hide Pinned, Matches;
    forall j | 0 <= j < |t| && Matches(t[j], instr) ensures Pinned(t, instr, j) {
      SortedPins(t, instr, j);
    }
    r := FindOpcode(t, instr);
  }

  // ---------------------------------------------------------------- get_operand_value

  /** The value of one operand of an instruction, if the instruction has that operand. */
  function OperandValue(e: Entry, instr: Word, o: Operand): Option<Word> {
    if o in e.form.fields then Some(Field(instr, o)) else None
  }

  method GetOperandValue(e: Entry, instr: Word, o: Operand) returns (r: Option<Word>)
    ensures r == OperandValue(e, instr, o)
  {
    hide Field;
    var i := 0;
    while i < |e.form.fields|
      invariant 0 <= i <= |e.form.fields|
      invariant o !in e.form.fields[..i]
    {
      if e.form.fields[i] != o {
        i := i + 1;
        continue;
      }
      return Some(Field(instr, e.form.fields[i]));
    }
    return None;
  }

  // ---------------------------------------------------------------- operand text

  datatype AsmError = NumOperands | BadRegister | BadSpr | BadTbr

  datatype Result<+T> = Ok(value: T) | Err(error: AsmError)

  predicate IsHexDigit(c: char) { IsDigit(c) || 'a' <= c <= 'f' || 'A' <= c <= 'F' }

  /** Conversion to `unsigned long`, wrapping. */
  function ToWord(x: int): Word { (x % TWO32) as Word }

  /** The digit loop of `simple_strtoul`; unsigned arithmetic wraps. */
  function Digits(txt: string, base: nat, acc: nat): nat {
    if txt == [] || !IsHexDigit(txt[0]) || DigitValue(txt[0]) >= base then acc
    else Digits(txt[1..], base, (acc * base + DigitValue(txt[0])) % TWO32)
  }

  /** `simple_strtoul` for base 10 or 16; a leading `0x` switches to base 16. */
  function StrToUl(txt: string, base: nat): nat {
    if txt == [] || txt[0] != '0' then Digits(txt, base, 0)
    else if |txt| > 2 && txt[1] == 'x' && IsHexDigit(txt[2]) then Digits(txt[2..], 16, 0)
    else Digits(txt[1..], base, 0)
  }

  /** `read_number`, a `long`. */
  function ReadLong(txt: string): int {
    if txt == [] then 0
    else
      var digits := if txt[0] == '-' then txt[1..] else txt;
      var val: int := if |digits| > 1 && digits[0] == '0' && (digits[1] == 'x' || digits[1] == 'X')
                      then StrToUl(digits[2..], 16) else StrToUl(digits, 10);
      Int32(if txt[0] == '-' then -val else val)
  }

  /** The same as a word of the machine. */
  function ReadNumber(txt: string): Word { ToWord(ReadLong(txt)) }

  // ---------------------------------------------------------------- numbers as texts

  predicate Decimal(ds: string) { ds != "" && forall c <- ds :: IsDigit(c) }

  predicate Hexadecimal(ds: string) { ds != "" && forall c <- ds :: IsHexDigit(c) }

  lemma HexDigitIs(c: char)
    ensures IsHexDigit(c) <==> 0 <= DigitValue(c) < 16
  {
  }

  lemma HexDigitValue(c: char)
    requires IsHexDigit(c)
    ensures 0 <= DigitValue(c) < 16 && (IsDigit(c) <==> DigitValue(c) < 10) && c != 'x' && c != 'X' && c != '-'
  {
  }

  lemma WrapStep(v: int, base: nat, d: int)
    ensures (v % TWO32 * base + d) % TWO32 == (v * base + d) % TWO32
  {
    var q := v / TWO32;
    assert v * base + d == v % TWO32 * base + d + q * base * TWO32 by {
      assert v == q * TWO32 + v % TWO32;
      Times(q, TWO32, v % TWO32, base);
    }
    WrapAdd(v % TWO32 * base + d, q * base);
  }

  lemma Times(q: int, m: int, r: int, base: int)
    ensures (q * m + r) * base == r * base + q * base * m
  {
  }

  lemma WrapAdd(x: int, k: int)
    ensures (x + k * TWO32) % TWO32 == x % TWO32
  {
    DivModUnique(x + k * TWO32, TWO32, x / TWO32 + k, x % TWO32);
  }

  /** What ends a numeral. */
  predicate Ends(rest: string, base: nat) {
    rest == "" || !IsHexDigit(rest[0]) || DigitValue(rest[0]) >= base
  }

  /** The digit loop: what has been read, the digits that follow, and what ends them. */
  lemma {:induction false} DigitsRead(seen: string, ds: string, rest: string, base: nat)
    requires (base == 10 || base == 16) && Ends(rest, base)
    requires forall c <- ds :: IsHexDigit(c) && DigitValue(c) < base
    ensures Digits(ds + rest, base, ValueOf(seen, base) % TWO32) == ValueOf(seen + ds, base) % TWO32
    decreases |ds|
  {
    hide ValueOf, DigitValue;
    if ds == "" {
      assert seen + ds == seen && ds + rest == rest;
    } else {
      assert ds[0] in ds && (ds + rest)[1..] == ds[1..] + rest;
      ValueOfSnoc(seen, ds[0], base);
      WrapStep(ValueOf(seen, base), base, DigitValue(ds[0]));
      DigitsRead(seen + [ds[0]], ds[1..], rest, base);
      assert seen + [ds[0]] + ds[1..] == seen + ds;
    }
  }

  lemma StartsFromZero(ds: string, base: nat)
    ensures ValueOf("", base) % TWO32 == 0 && ValueOf("0", base) % TWO32 == 0 && "" + ds == ds
  {
    NothingReadsZero(base);
    ValueOfSnoc("", '0', base);
    assert "" + "0" == "0";
  }

  lemma StrToUlReads(ds: string, rest: string, base: nat)
    requires ds != "" && (base == 10 || base == 16) && Ends(rest, base) && (ds == "0" ==> rest == "" || rest[0] != 'x')
    requires forall c <- ds :: IsHexDigit(c) && DigitValue(c) < base
    ensures StrToUl(ds + rest, base) == ValueOf(ds, base) % TWO32
  {
    hide ValueOf, Digits, DigitValue;
    StartsFromZero(ds, base);
    if ds[0] != '0' {
      DigitsRead("", ds, rest, base);
    } else {
      if |ds| > 1 { assert ds[1] in ds; HexDigitValue(ds[1]); }
      DigitsRead("0", ds[1..], rest, base);
      assert "0" + ds[1..] == ds && (ds + rest)[1..] == ds[1..] + rest;
    }
  }

  lemma Negated(v: int)
    ensures Int32(v % TWO32) == Int32(v) && Int32(-(v % TWO32)) == Int32(-v)
  {
    assert v == v / TWO32 * TWO32 + v % TWO32;
    SameInt32(v, v % TWO32, v / TWO32);
    SameInt32(-v, -(v % TWO32), -(v / TWO32));
  }

  lemma SameInt32(x: int, y: int, k: int)
    requires x == y + k * TWO32
    ensures Int32(x) == Int32(y)
  {
    WrapAdd(y + TWO31, k);
  }

  lemma WordOfLong(x: int)
    ensures ToWord(Int32(x)) == ToWord(x)
  {
    hide ToWord;
    assert (x + TWO31) % TWO32 == x + TWO31 - (x + TWO31) / TWO32 * TWO32;
    WrapAdd(x, -((x + TWO31) / TWO32));
    SameWord(Int32(x), x);
  }

  lemma SameWord(x: int, y: int)
    requires x % TWO32 == y % TWO32
    ensures ToWord(x) == ToWord(y)
  {
  }

  /** Decimal numerals are read as the numbers they denote, modulo 2^32, and so are negative ones; the numeral ends
      at the first character that is no decimal digit. */
  lemma ReadsDecimal(ds: string, rest: string)
    requires Decimal(ds) && (rest == "" || !IsDigit(rest[0]))
    requires ds == "0" ==> rest == "" || (rest[0] != 'x' && rest[0] != 'X')
    ensures ReadLong(ds + rest) == Int32(ValueOf(ds, 10)) && ReadLong("-" + ds + rest) == Int32(-ValueOf(ds, 10))
    ensures ReadNumber(ds + rest) == ToWord(ValueOf(ds, 10)) && ReadNumber("-" + ds + rest) == ToWord(-ValueOf(ds, 10))
  {
    hide ValueOf, StrToUl, ToWord, Int32;
    assert ds[0] in ds;
    if |ds| > 1 { assert ds[1] in ds; }
    if rest != "" && IsHexDigit(rest[0]) { HexDigitValue(rest[0]); }
    assert ("-" + ds + rest)[1..] == ds + rest;
    StrToUlReads(ds, rest, 10);
    Negated(ValueOf(ds, 10));
    WordOfLong(ValueOf(ds, 10));
    WordOfLong(-ValueOf(ds, 10));
  }

  /** Hexadecimal ones after `0x` or `0X`; they end at the first character that is no hexadecimal digit. */
  lemma ReadsHexadecimal(ds: string, x: char, rest: string)
    requires Hexadecimal(ds) && (x == 'x' || x == 'X') && (rest == "" || !IsHexDigit(rest[0]))
    requires ds == "0" ==> rest == "" || rest[0] != 'x'
    ensures ReadNumber(['0', x] + ds + rest) == ToWord(ValueOf(ds, 16))
    ensures ReadNumber(['-', '0', x] + ds + rest) == ToWord(-ValueOf(ds, 16))
  {
    hide ValueOf, StrToUl, ToWord, DigitValue, Int32;
    assert (['0', x] + ds + rest)[2..] == ds + rest && (['-', '0', x] + ds + rest)[1..] == ['0', x] + ds + rest;
    forall c <- ds ensures DigitValue(c) < 16 { HexDigitValue(c); }
    StrToUlReads(ds, rest, 16);
    Negated(ValueOf(ds, 16));
    WordOfLong(ValueOf(ds, 16));
    WordOfLong(-ValueOf(ds, 16));
  }

  function ToLower(c: char): char { if 'A' <= c <= 'Z' then ((c as int) + 32) as char else c }

  /** `downstring`. */
  function Lower(txt: string): (r: string)
    ensures |r| == |txt| && forall i :: 0 <= i < |txt| ==> r[i] == ToLower(txt[i])
  {
    seq(|txt|, i requires 0 <= i < |txt| => ToLower(txt[i]))
  }

  /** The register number without its `r`, `R`, `%r` or `%R`. */
  function StripRegister(txt: string): string {
    if |txt| > 0 && (txt[0] == 'r' || txt[0] == 'R') then txt[1..]
    else if |txt| > 1 && txt[0] == '%' && (txt[1] == 'r' || txt[1] == 'R') then txt[2..]
    else txt
  }

  /** The two five-bit halves of a register number, exchanged. */
  function SwapHalves(v: Word): Word { ((v >> 5) & 0x1f) | ((v & 0x1f) << 5) }

  function FindSpr(name: string, sprs: seq<SprInfo>): Option<Word> {
    if sprs == [] then None
    else if sprs[0].name == name then Some(sprs[0].val)
    else FindSpr(name, sprs[1..])
  }

  function SprValue(txt: string, sprs: seq<SprInfo>): Word {
    if txt == [] then 0
    else if IsDigit(txt[0]) then SwapHalves(ReadNumber(txt))
    else
      match FindSpr(Lower(txt), sprs)
      case Some(v) => SwapHalves(v)
      case None => 0
  }

  function TbrValue(txt: string): Word {
    var name := Lower(txt);
    if txt == [] then 0
    else if IsDigit(name[0]) then
      var v := ReadNumber(name);
      if v != 268 && v != 269 then 0 else SwapHalves(v)
    else if name == "tbl" then SwapHalves(268)
    else if name == "tbu" then SwapHalves(269)
    else 0
  }

  /** `parse_operand`, before the value is cut to its width and shifted into place. */
  function OperandData(memaddr: Word, e: Entry, o: Operand, txt: string, sprs: seq<SprInfo>): Result<Word> {
    match o.hint
    case Addr => Ok(Encoded(if e.relative then Minus(ReadNumber(txt), memaddr) else ReadNumber(txt), o))
    case Reg =>
      var n := ReadLong(StripRegister(txt));
      if n > 31 then Err(BadRegister) else Ok(ToWord(n))
    case Spr => var v := SprValue(txt, sprs); if v == 0 then Err(BadSpr) else Ok(v)
    case Tbr => var v := TbrValue(txt); if v == 0 then Err(BadTbr) else Ok(v)
    case _ => Ok(ReadNumber(txt))
  }

  // ---------------------------------------------------------------- asmppc

  /** The values of all operands that are not skipped, read from the words of the line in order. */
  function AllData(memaddr: Word, e: Entry, fields: seq<Operand>, words: seq<string>, sprs: seq<SprInfo>)
    : (r: Result<seq<Word>>)
    ensures r.Ok? ==> |r.value| == Wanted(fields)
    decreases |fields|
  {
    if fields == [] then Ok([])
    else if fields[0].hint.Silent? then AllData(memaddr, e, fields[1..], words, sprs)
    else if words == [] then Err(NumOperands)
    else
      match OperandData(memaddr, e, fields[0], words[0], sprs)
      case Err(x) => Err(x)
      case Ok(d) =>
        match AllData(memaddr, e, fields[1..], words[1..], sprs)
        case Err(x) => Err(x)
        case Ok(ds) => Ok([d] + ds)
  }

  function Assembled(instr: Word, memaddr: Word, e: Entry, fields: seq<Operand>, words: seq<string>, sprs: seq<SprInfo>)
    : Result<Word>
  {
    match AllData(memaddr, e, fields, words, sprs)
    case Err(x) => Err(x)
    case Ok(ds) => Ok(Packed(instr, fields, ds))
  }

  /** A line with too few words is refused, and nothing else is called a wrong number of operands; words behind the
      last operand are not looked at. */
  lemma {:induction false} OperandsCounted(memaddr: Word, e: Entry, fields: seq<Operand>, words: seq<string>,
                                           sprs: seq<SprInfo>)
    ensures AllData(memaddr, e, fields, words, sprs) == Err(NumOperands) ==> |words| < Wanted(fields)
    ensures |words| < Wanted(fields) ==> AllData(memaddr, e, fields, words, sprs).Err?
    ensures |words| >= Wanted(fields) ==> AllData(memaddr, e, fields, words, sprs) ==
                                          AllData(memaddr, e, fields, words[..Wanted(fields)], sprs)
    decreases |fields|
  {
    if fields != [] {
      if fields[0].hint.Silent? {
        OperandsCounted(memaddr, e, fields[1..], words, sprs);
      } else if words != [] {
        OperandNeverCounts(memaddr, e, fields[0], words[0], sprs);
        hide OperandData;
        OperandsCounted(memaddr, e, fields[1..], words[1..], sprs);
        if |words| >= Wanted(fields) {
          var n := Wanted(fields);
          assert words[..n][1..] == words[1..][..n - 1] && words[..n][0] == words[0];
        }
      }
    }
  }

  lemma OperandNeverCounts(memaddr: Word, e: Entry, o: Operand, txt: string, sprs: seq<SprInfo>)
    ensures OperandData(memaddr, e, o, txt, sprs) != Err(NumOperands)
  {
  }

  lemma AssembledNext(instr: Word, memaddr: Word, e: Entry, fields: seq<Operand>, words: seq<string>,
                      sprs: seq<SprInfo>)
    ensures Assembled(instr, memaddr, e, [], words, sprs) == Ok(instr)
    ensures fields != [] && fields[0].hint.Silent? ==>
              Assembled(instr, memaddr, e, fields, words, sprs) ==
              Assembled(instr, memaddr, e, fields[1..], words, sprs)
    ensures fields != [] && !fields[0].hint.Silent? && words == [] ==>
              Assembled(instr, memaddr, e, fields, words, sprs) == Err(NumOperands)
    ensures fields != [] && !fields[0].hint.Silent? && words != [] ==>
              Assembled(instr, memaddr, e, fields, words, sprs) ==
              match OperandData(memaddr, e, fields[0], words[0], sprs)
              case Err(x) => Err(x)
              case Ok(d) =>
                Assembled(Join(instr, Place(d, fields[0])), memaddr, e, fields[1..], words[1..], sprs)
  {
    hide OperandData, Join, Place;
    if fields != [] && !fields[0].hint.Silent? && words != [] {
      match OperandData(memaddr, e, fields[0], words[0], sprs) {
        case Err(x) =>
        case Ok(d) =>
          match AllData(memaddr, e, fields[1..], words[1..], sprs) {
            case Err(x) =>
            case Ok(ds) =>
              assert ([d] + ds)[0] == d && ([d] + ds)[1..] == ds;
          }
      }
    }
  }

  /** `asmppc` after the mnemonic has been looked up: `e` is its row, `words` the rest of the line. */
  method AsmPpc(memaddr: Word, e: Row, words: seq<string>, sprs: seq<SprInfo>) returns (r: Result<Word>)
    ensures r == Assembled(e.opcode, memaddr, e, e.form.fields, words, sprs)
  {
    hide OperandData, Join, Place, Assembled;
    var fields := e.form.fields;
    var instr := e.opcode;
    var n, w := 0, 0;
    assert fields[0..] == fields && words[0..] == words;
    while n < |fields|
      invariant 0 <= n <= |fields| && 0 <= w <= |words|
      invariant Assembled(e.opcode, memaddr, e, fields, words, sprs) ==
                Assembled(instr, memaddr, e, fields[n..], words[w..], sprs)
    {
      AssembledNext(instr, memaddr, e, fields[n..], words[w..], sprs);
      assert fields[n..][0] == fields[n] && fields[n..][1..] == fields[n + 1..];
      if fields[n].hint.Silent? {
        n := n + 1;
        continue;
      }
      if w == |words| {
        break;
      }
      assert words[w..][0] == words[w] && words[w..][1..] == words[w + 1..];
      var param := OperandData(memaddr, e, fields[n], words[w], sprs);
      if param.Err? {
        return Err(param.error);
      }
      instr := Join(instr, Place(param.value, fields[n]));
      n, w := n + 1, w + 1;
    }
    if n < |fields| {
      return Err(NumOperands);
    }
    assert fields[n..] == [];
    AssembledNext(instr, memaddr, e, fields[n..], words[w..], sprs);
    return Ok(instr);
  }

  /** What the assembler packs, the disassembler takes apart again: the search finds the row the line was
      assembled from, and every operand that was read comes back as it was encoded, cut to its width. */
  lemma AssembleDisassemble(t: seq<Row>, j: nat, memaddr: Word, words: seq<string>, sprs: seq<SprInfo>)
    requires j < |t| && Sorted(t)
    requires AllData(memaddr, t[j], t[j].form.fields, words, sprs).Ok?
    ensures var e := t[j];
            var ds := AllData(memaddr, e, e.form.fields, words, sprs).value;
            var instr := Packed(e.opcode, e.form.fields, ds);
            && Assembled(e.opcode, memaddr, e, e.form.fields, words, sprs) == Ok(instr)
            && Pinned(t, instr, j)
            && forall k :: 0 <= k < |e.form.fields| && !e.form.fields[k].hint.Silent? ==>
                 var o := e.form.fields[k];
                 Wanted(e.form.fields[..k]) < |ds| &&
                 OperandValue(e, instr, o) == Some(And(ds[Wanted(e.form.fields[..k])], Ones(o)))
  {
    hide AllData, Packed, Pinned, And, Ones, Field, Clear, Within, Join, Fit, UsedBy;
    var e := t[j];
    var fields, mask := e.form.fields, e.form.mask;
    var ds := AllData(memaddr, e, fields, words, sprs).value;
    var instr := Packed(e.opcode, fields, ds);
    PackedKeepsOpcode(e, ds);
    SortedPins(t, instr, j);
    FieldsClearOfMask(fields, mask);
    ClearWithin(UsedBy(fields), mask, e.opcode);
    forall k | 0 <= k < |fields| && !fields[k].hint.Silent?
      ensures Wanted(fields[..k]) < |ds|
      ensures OperandValue(e, instr, fields[k]) == Some(And(ds[Wanted(fields[..k])], Ones(fields[k])))
    {
      PackedRecovers(e.opcode, fields, mask, ds, k);
    }
  }

  lemma FifteenBits(d: Word)
    ensures And(d, Ones(O_d)) == d <==> d < 0x8000
    ensures And(0xffff_fffc, Ones(O_d)) == 0x7ffc
  {
    assert Ones(O_d) == 0x7fff;
    if d < 0x8000 { LowBits(d); }
    if And(d, 0x7fff) == d { AtMost(d); }
  }

  lemma LowBits(d: Word)
    requires d < 0x8000
    ensures d & 0x7fff == d
  {
  }

  lemma AtMost(d: Word)
    ensures d & 0x7fff < 0x8000
  {
  }

  /** The displacement of a load or store is declared one bit too narrow: it comes back exactly if it is below 2^15. */
  lemma DisplacementComesBack(t: seq<Row>, j: nat, memaddr: Word, words: seq<string>, sprs: seq<SprInfo>, k: nat)
    requires j < |t| && Sorted(t) && k < |t[j].form.fields| && t[j].form.fields[k] == O_d
    requires AllData(memaddr, t[j], t[j].form.fields, words, sprs).Ok?
    ensures var e := t[j];
            var ds := AllData(memaddr, e, e.form.fields, words, sprs).value;
            && Wanted(e.form.fields[..k]) < |ds|
            && var d := ds[Wanted(e.form.fields[..k])];
               OperandValue(e, Packed(e.opcode, e.form.fields, ds), O_d) == Some(d) <==> d < 0x8000
  {
    hide AllData, Packed, Pinned, And, Ones, Field, Sorted, OperandValue, Fit, UsedBy;
    AssembleDisassemble(t, j, memaddr, words, sprs);
    var e := t[j];
    FifteenBits(AllData(memaddr, e, e.form.fields, words, sprs).value[Wanted(e.form.fields[..k])]);
  }

  lemma OneDigit(c: char)
    requires IsDigit(c)
    ensures ReadNumber([c]) == ToWord(DigitValue(c)) && ReadNumber(['-', c]) == ToWord(-DigitValue(c))
    ensures ReadLong([c]) == DigitValue(c)
  {
    hide ReadNumber, ReadLong, ToWord, DigitValue;
    ReadsDecimal([c], "");
    ValueOfSnoc("", c, 10);
    NothingReadsZero(10);
    HexDigitValue(c);
    assert [c] + "" == [c] && "-" + [c] + "" == ['-', c] && "" + [c] == [c];
  }

  lemma OneOperand(memaddr: Word, e: Entry, o: Operand, fields: seq<Operand>, txt: string, words: seq<string>,
                   sprs: seq<SprInfo>, d: Word, ds: seq<Word>)
    requires !o.hint.Silent? && OperandData(memaddr, e, o, txt, sprs) == Ok(d)
    requires AllData(memaddr, e, fields, words, sprs) == Ok(ds)
    ensures AllData(memaddr, e, [o] + fields, [txt] + words, sprs) == Ok([d] + ds)
  {
    hide OperandData;
    assert ([o] + fields)[1..] == fields && ([txt] + words)[1..] == words;
  }

  /** The row of `lwz`. */
  const LWZ: Row := Entry(OpcodeD(32), D_rD_d_rA, false)

  lemma LwzFields()
    ensures LWZ.form.fields == [O_rD, O_d, O_rA]
  {
    hide Fit, UsedBy;
  }

  lemma RegisterData(memaddr: Word, e: Entry, o: Operand, c: char, sprs: seq<SprInfo>)
    requires IsDigit(c) && o.hint.Reg?
    ensures OperandData(memaddr, e, o, ['r', c], sprs) == Ok(ToWord(DigitValue(c)))
  {
    hide ReadNumber, ReadLong, ToWord, DigitValue;
    assert ['r', c][1..] == [c];
    OneDigit(c);
    HexDigitValue(c);
  }

  lemma MinusFour(memaddr: Word, e: Entry, sprs: seq<SprInfo>)
    ensures OperandData(memaddr, e, O_d, ['-', '4'], sprs) == Ok(0xffff_fffc)
  {
    hide ReadNumber, ToWord, DigitValue;
    OneDigit('4');
    MinusFourWord();
    FourThreeOne();
  }

  lemma MinusFourWord()
    ensures ToWord(-4) == 0xffff_fffc
  {
    assert -4 % TWO32 == 0xffff_fffc;
  }

  lemma SmallWords()
    ensures ToWord(3) == 3 && ToWord(1) == 1
  {
  }

  lemma FourThreeOne()
    ensures DigitValue('4') == 4 && DigitValue('3') == 3 && DigitValue('1') == 1
  {
  }

  lemma LwzOperands(memaddr: Word, sprs: seq<SprInfo>)
    ensures AllData(memaddr, LWZ, [O_rD, O_d, O_rA], ["r3", "-4", "r1"], sprs) == Ok([3, 0xffff_fffc, 1])
  {
    hide AllData, LWZ, OperandData, ToWord, DigitValue;
    SmallWords();
    FourThreeOne();
    RegisterData(memaddr, LWZ, O_rD, '3', sprs);
    MinusFour(memaddr, LWZ, sprs);
    RegisterData(memaddr, LWZ, O_rA, '1', sprs);
    NoOperands(memaddr, LWZ, sprs);
    assert "r3" == ['r', '3'] && "-4" == ['-', '4'] && "r1" == ['r', '1'];
    OneOperand(memaddr, LWZ, O_rA, [], "r1", [], sprs, 1, []);
    OneOperand(memaddr, LWZ, O_d, [O_rA] + [], "-4", ["r1"] + [], sprs, 0xffff_fffc, [1] + []);
    OneOperand(memaddr, LWZ, O_rD, [O_d] + ([O_rA] + []), "r3", ["-4"] + (["r1"] + []), sprs, 3,
               [0xffff_fffc] + ([1] + []));
    assert [O_rD] + ([O_d] + ([O_rA] + [])) == [O_rD, O_d, O_rA];
    assert ["r3"] + (["-4"] + (["r1"] + [])) == ["r3", "-4", "r1"];
    assert [3] + ([0xffff_fffc] + ([1] + [])) == [3, 0xffff_fffc as Word, 1];
  }

  lemma NoOperands(memaddr: Word, e: Entry, sprs: seq<SprInfo>)
    ensures AllData(memaddr, e, [], [], sprs) == Ok([])
  {
  }

  /** `lwz r3,-4,r1`: the displacement in the word assembled is 32764. */
  lemma NegativeDisplacement(memaddr: Word, sprs: seq<SprInfo>)
    ensures var r := Assembled(LWZ.opcode, memaddr, LWZ, LWZ.form.fields, ["r3", "-4", "r1"], sprs);
            r.Ok? && OperandValue(LWZ, r.value, O_d) == Some(0x7ffc)
  {
    hide AllData, Packed, Pinned, And, Ones, Field, Fit, UsedBy, OperandValue, Within;
    LwzFields();
    LwzOperands(memaddr, sprs);
    AssembleDisassemble([LWZ], 0, memaddr, ["r3", "-4", "r1"], sprs);
    var f := LWZ.form.fields;
    assert f[1] == O_d && f[..1] == [O_rD] && [O_rD][1..] == [];
    assert Wanted([]) == 0 && Wanted([O_rD]) == 1;
    FifteenBits(0);
  }

  /** `spr_name` undoes the exchange of `spr_value`. */
  lemma SprSwapsBack(v: Word)
    ensures SwapHalves(And(SwapHalves(v), Ones(O_spr))) == v & 0x3ff
  {
    assert Ones(O_spr) == 0x3ff;
  }

  /** A name is found exactly if some entry is spelled like it, letter for letter, and the first such entry gives
      its number. */
  lemma {:induction false} FoundIff(name: string, sprs: seq<SprInfo>)
    ensures FindSpr(name, sprs).Some? <==> exists i :: 0 <= i < |sprs| && sprs[i].name == name
    ensures forall i :: 0 <= i < |sprs| && sprs[i].name == name && (forall k :: 0 <= k < i ==> sprs[k].name != name) ==>
                          FindSpr(name, sprs) == Some(sprs[i].val)
  {
    if sprs != [] && sprs[0].name != name {
      FoundIff(name, sprs[1..]);
      if i :| 0 <= i < |sprs| && sprs[i].name == name { assert i > 0 ==> sprs[1..][i - 1].name == name; }
      if i :| 0 <= i < |sprs[1..]| && sprs[1..][i].name == name { assert sprs[i + 1].name == name; }
      forall i | 0 <= i < |sprs| && sprs[i].name == name && (forall k :: 0 <= k < i ==> sprs[k].name != name)
        ensures FindSpr(name, sprs) == Some(sprs[i].val)
      {
        assert forall k :: 0 <= k < i - 1 ==> sprs[1..][k] == sprs[k + 1];
        assert sprs[1..][i - 1].name == name;
      }
    }
  }

  /** A symbolic register name is folded to lower case before it is compared: an entry that is spelled with
      a capital letter is never found. */
  lemma CapitalNamesNeverMatch(txt: string, sprs: seq<SprInfo>)
    requires forall i :: 0 <= i < |sprs| ==> HasCapital(sprs[i].name)
    ensures FindSpr(Lower(txt), sprs) == None
  {
    FoundIff(Lower(txt), sprs);
  }

  /** The exchange: the low five bits go up, the next five down. */
  lemma SwapHalvesIs(v: Word)
    ensures SwapHalves(v) & 0x1f == (v >> 5) & 0x1f && SwapHalves(v) >> 5 == v & 0x1f
  {
  }

  lemma SwapIsZero(v: Word)
    ensures SwapHalves(v) == 0 <==> v & 0x3ff == 0
  {
  }

  /** With the source's table, `spr_value` accepts an operand exactly if it is a number whose low ten bits are
      not all zero: no symbolic name is ever accepted. */
  lemma SprAcceptedIff(txt: string)
    ensures SprValue(txt, SPRS) != 0 <==> txt != [] && IsDigit(txt[0]) && ReadNumber(txt) & 0x3ff != 0
  {
    hide SwapHalves, ReadNumber, FindSpr, HasCapital;
    AllCapitals();
    CapitalNamesNeverMatch(txt, SPRS);
    SwapIsZero(ReadNumber(txt));
  }

  /** The time base operand: the numbers 268 and 269, or the two names in any case, and nothing else. */
  lemma TbrAcceptedIff(txt: string)
    ensures var name := Lower(txt);
            var number := txt != [] && IsDigit(name[0]);
            && (TbrValue(txt) == 0x188 <==> if number then ReadNumber(name) == 268 else name == "tbl")
            && (TbrValue(txt) == 0x1a8 <==> if number then ReadNumber(name) == 269 else name == "tbu")
            && (TbrValue(txt) == 0 || TbrValue(txt) == 0x188 || TbrValue(txt) == 0x1a8)
  {
    hide ReadNumber;
    assert SwapHalves(268) == 0x188 && SwapHalves(269) == 0x1a8;
  }

  /** Register operands: a number up to 31, with or without the letter; what is above is refused, unless it is so
      large that it is negative as a `long`. */
  lemma RegisterAcceptedIff(memaddr: Word, e: Entry, o: Operand, ds: string, letter: string, sprs: seq<SprInfo>)
    requires o.hint.Reg? && Decimal(ds) && letter in {"", "r", "R", "%r", "%R"}
    ensures var n := Int32(ValueOf(ds, 10));
            OperandData(memaddr, e, o, letter + ds, sprs) == if n <= 31 then Ok(ToWord(n)) else Err(BadRegister)
  {
    hide ReadNumber, ReadLong, ToWord, ValueOf, Int32, StripRegister;
    ReadsDecimal(ds, "");
    assert ds + "" == ds;
    Stripped(ds, letter);
  }

  lemma Stripped(ds: string, letter: string)
    requires Decimal(ds) && letter in {"", "r", "R", "%r", "%R"}
    ensures StripRegister(letter + ds) == ds
  {
    assert ds[0] in ds;
    assert (letter + ds)[|letter|..] == ds;
    assert letter != "" ==> (letter + ds)[0] == letter[0];
    assert |letter| > 1 ==> (letter + ds)[1] == letter[1];
  }

  /** What `parse_operand` says of the other operands: a special-purpose register that is not accepted is a bad one,
      and so is a time base register; plain operands and offsets are numbers, whatever their size. */
  lemma OthersAcceptedIff(memaddr: Word, e: Entry, o: Operand, txt: string)
    ensures o.hint.Spr? ==>
              OperandData(memaddr, e, o, txt, SPRS) ==
              if txt != [] && IsDigit(txt[0]) && ReadNumber(txt) & 0x3ff != 0 then Ok(SwapHalves(ReadNumber(txt)))
              else Err(BadSpr)
    ensures o.hint.Tbr? ==> var d := OperandData(memaddr, e, o, txt, SPRS); d in {Ok(0x188), Ok(0x1a8), Err(BadTbr)}
    ensures o.hint.Tbr? ==> (OperandData(memaddr, e, o, txt, SPRS) == Err(BadTbr) <==> TbrValue(txt) == 0)
    ensures o.hint.Plain? || o.hint.Offset? ==> OperandData(memaddr, e, o, txt, SPRS) == Ok(ReadNumber(txt))
  {
    hide SwapHalves, ReadNumber, FindSpr;
    SprAcceptedIff(txt);
    TbrAcceptedIff(txt);
  }

  /** A negative number is not above 31: `r-1` is accepted and, cut to five bits, becomes register 31. */
  lemma NegativeRegister(memaddr: Word, e: Entry, o: Operand, ds: string, sprs: seq<SprInfo>)
    requires o.hint.Reg? && Decimal(ds) && 0 <= ValueOf(ds, 10) <= TWO31
    ensures OperandData(memaddr, e, o, "r-" + ds, sprs) == Ok(ToWord(-ValueOf(ds, 10)))
  {
    hide ReadNumber, ReadLong, ToWord, ValueOf;
    ReadsDecimal(ds, "");
    assert ("r-" + ds)[1..] == "-" + ds + "";
  }

  /** Opcodes as the architecture fixes them. */
  lemma KnownOpcodes()
    ensures OpcodeI(18, 0, 0) == 0x4800_0000 && OpcodeI(18, 1, 1) == 0x4800_0003  // b, bla
    ensures OpcodeB(16, 0, 0) == 0x4000_0000 && OpcodeB(16, 0, 1) == 0x4000_0001  // bc, bcl
    ensures OpcodeXl(19, 16, 0) == 0x4c00_0020 && OpcodeXl(19, 528, 1) == 0x4c00_0421  // bclr, bcctrl
    ensures OpcodeSc(17) == 0x4400_0002 && OpcodeD(32) == 0x8000_0000  // sc, lwz
    ensures OpcodeX(31, 28, 1) == 0x7c00_0039 && OpcodeXfx(31, 339, 0) == 0x7c00_02a6  // and., mfspr
    ensures OpcodeXo(31, 266, 1, 0) == 0x7c00_0614 && OpcodeXo(31, 266, 0, 1) == 0x7c00_0215  // addo, add.
    ensures OpcodeM(21, 1) == 0x5400_0001  // rlwinm.
  {
  }

  /** Operands in their places, in words known from the architecture: `add r3,r4,r5` is 0x7c642a14, `lwz r3,8(r1)`
      0x80610008, `mfspr r3,8` 0x7c6802a6, `b` over 256 bytes 0x48000100 and back over them 0x4bffff00, `beq` over
      eight 0x41820008. */
  lemma KnownPlaces()
    ensures Place(3, O_rD) == 0x0060_0000 && Place(3, O_rS) == 0x0060_0000
    ensures Place(4, O_rA) == 0x0004_0000 && Place(5, O_rB) == 0x2800 && Place(8, O_d) == 8
    ensures Place(SwapHalves(8), O_spr) == 0x0008_0000
    ensures Place(12, O_BO) == 0x0180_0000 && Place(2, O_BI) == 0x0002_0000
  {
  }

  lemma KnownAddresses()
    ensures Place(Encoded(0x100, O_LI), O_LI) == 0x100 && Place(Encoded(0xffff_ff00, O_LI), O_LI) == 0x03ff_ff00
    ensures Place(Encoded(8, O_BD), O_BD) == 8 && Place(Encoded(0xffff_fff8, O_BD), O_BD) == 0xfff8
  {
  }

  // ---------------------------------------------------------------- find_next_address

  datatype Regs = Regs(nip: Word, ctr: Word, ccr: Word, link: Word)

  /** Bit BI of the condition register, counted from the most significant end. */
  predicate CrBit(cr: Word, bi: Word)
    requires bi < 32
  {
    cr & (1 << (31 - bi)) != 0
  }

  /** The word whose only one is bit `k`, counted from the left. */
  function Single(k: Word): Word
    requires k < 32
  {
    0x8000_0000 >> k
  }

  /** BI numbers the bits of the condition register from the left: of a single one it finds exactly that one. */
  lemma CrBitOfSingle(k: Word, bi: Word)
    requires k < 32 && bi < 32
    ensures CrBit(Single(k), bi) <==> bi == k
  {
  }

  /** And it looks at nothing else. */
  lemma CrBitOfUnion(a: Word, b: Word, bi: Word)
    requires bi < 32
    ensures CrBit(Join(a, b), bi) <==> CrBit(a, bi) || CrBit(b, bi)
  {
    hide Join;
    MeetsEither(a, b, 1 << (31 - bi));
  }

  lemma MeetsEither(a: Word, b: Word, m: Word)
    ensures And(Join(a, b), m) != 0 <==> And(a, m) != 0 || And(b, m) != 0
  {
    hide And, Join;
    AndEither(a, b, m);
    EitherZero(And(a, m), And(b, m));
  }

  lemma AndEither(a: Word, b: Word, m: Word)
    ensures And(Join(a, b), m) == Join(And(a, m), And(b, m))
  {
  }

  lemma EitherZero(a: Word, b: Word)
    ensures Join(a, b) == 0 <==> a == 0 && b == 0
  {
  }

  lemma CrBitIsDigit(cr: Word, bi: Word)
    requires bi < 32
    ensures CrBit(cr, bi) <==> (cr >> (31 - bi)) & 1 == 1
  {
  }

  // The branch rules of section 2.4.1 of the PowerPC User Instruction Set Architecture, Book I.  BO is
  // five bits, numbered 0 to 4 from the left.

  function CtrAfter(bo: Word, ctr: Word): Word { if bo & 0x04 == 0 then Minus(ctr, 1) else ctr }

  predicate CtrOk(bo: Word, ctr: Word) {
    bo & 0x04 != 0 || ((CtrAfter(bo, ctr) != 0) != (bo & 0x02 != 0))
  }

  predicate CondOk(bo: Word, crBit: bool) {
    bo & 0x10 != 0 || crBit == (bo & 0x08 != 0)
  }

  /** The encodings of BO that the architecture defines, with the bits marked `z` zero, except that the last bit,
      which the source drops, may be anything: the `z` that ends 1z1zz is ignored (21 counts as 20). */
  predicate DefinedBo(bo: Word) {
    var k := bo >> 1;
    k == 0 || k == 1 || k == 2 || k == 4 || k == 5 || k == 6 || k == 8 || k == 9 || k == 10
  }

  /** What the switch of `find_next_address` decides. */
  method BranchDecision(bo: Word, ctr: Word, crBit: bool) returns (ctrOk: bool, condOk: bool)
    requires bo < 32
    ensures ctrOk && condOk <==> DefinedBo(bo) && CtrOk(bo, ctr) && CondOk(bo, crBit)
  {
    hide Minus;
    ctrOk, condOk := false, false;
    var c := Minus(ctr, 1);
    var k := (bo & 0x1e) >> 1;
    assert k == bo >> 1;
    if k == 0 {
      if c != 0 { ctrOk := true; }
      condOk := !crBit;
    } else if k == 1 {
      if c == 0 { ctrOk := true; }
      condOk := !crBit;
    } else if k == 2 {
      ctrOk := true;
      condOk := !crBit;
    } else if k == 4 {
      if c != 0 { ctrOk := true; }
      condOk := crBit;
    } else if k == 5 {
      if c == 0 { ctrOk := true; }
      condOk := crBit;
    } else if k == 6 {
      ctrOk := true;
      condOk := crBit;
    } else if k == 8 {
      if c != 0 { ctrOk, condOk := true, true; }
    } else if k == 9 {
      if c == 0 { ctrOk, condOk := true, true; }
    } else if k == 10 {
      ctrOk, condOk := true, true;
    }
  }

  // ---------------------------------------------------------------- instruction classes

  function Bo(instr: Word): Word { (instr >> 21) & 0x1f }

  function Bi(instr: Word): Word { (instr >> 16) & 0x1f }

  predicate Aa(instr: Word) { instr & 2 != 0 }

  predicate Lk(instr: Word) { instr & 1 != 0 }

  predicate IsBc(instr: Word) { instr >> 26 == 16 }

  predicate IsB(instr: Word) { instr >> 26 == 18 }

  predicate IsBclr(instr: Word) { instr >> 26 == 19 && (instr >> 1) & 0x3ff == 16 }

  predicate IsBcctr(instr: Word) { instr >> 26 == 19 && (instr >> 1) & 0x3ff == 528 }

  predicate BcRow(op: Word) {
    op == OpcodeB(16, 0, 0) || op == OpcodeB(16, 0, 1) || op == OpcodeB(16, 1, 0) || op == OpcodeB(16, 1, 1)
  }

  predicate BRow(op: Word) {
    op == OpcodeI(18, 0, 0) || op == OpcodeI(18, 0, 1) || op == OpcodeI(18, 1, 0) || op == OpcodeI(18, 1, 1)
  }

  predicate BcctrRow(op: Word) { op == OpcodeXl(19, 528, 0) || op == OpcodeXl(19, 528, 1) }

  predicate BclrRow(op: Word) { op == OpcodeXl(19, 16, 0) || op == OpcodeXl(19, 16, 1) }

  lemma AaOfRows()
    ensures !Aa(OpcodeB(16, 0, 0)) && !Aa(OpcodeB(16, 0, 1)) && Aa(OpcodeB(16, 1, 0)) && Aa(OpcodeB(16, 1, 1))
    ensures !Aa(OpcodeI(18, 0, 0)) && !Aa(OpcodeI(18, 0, 1)) && Aa(OpcodeI(18, 1, 0)) && Aa(OpcodeI(18, 1, 1))
  {
  }

  lemma BcBits(instr: Word)
    ensures IsBc(instr) <==> BcRow(And(instr, B_MASK))
  {
  }

  lemma BBits(instr: Word)
    ensures IsB(instr) <==> BRow(And(instr, B_MASK))
  {
  }

  lemma BclrBits(instr: Word)
    ensures IsBclr(instr) <==> BclrRow(And(instr, X_MASK))
  {
  }

  lemma BcctrBits(instr: Word)
    ensures IsBcctr(instr) <==> BcctrRow(And(instr, X_MASK))
  {
  }

  predicate HasRow(t: seq<Row>, opcode: Word, form: Layout, relative: bool) {
    exists e :: e in t && e.opcode == opcode && e.form == form && e.relative == relative
  }

  /** The table has the rows of the branch instructions. */
  predicate BranchRows(t: seq<Row>) {
    && HasRow(t, OpcodeB(16, 0, 0), B_BO_BI_BD_AA_LK, true) && HasRow(t, OpcodeB(16, 0, 1), B_BO_BI_BD_AA_LK, true)
    && HasRow(t, OpcodeB(16, 1, 0), B_BO_BI_BD_AA_LK, false) && HasRow(t, OpcodeB(16, 1, 1), B_BO_BI_BD_AA_LK, false)
    && HasRow(t, OpcodeI(18, 0, 0), B_LI_AA_LK, true) && HasRow(t, OpcodeI(18, 0, 1), B_LI_AA_LK, true)
    && HasRow(t, OpcodeI(18, 1, 0), B_LI_AA_LK, false) && HasRow(t, OpcodeI(18, 1, 1), B_LI_AA_LK, false)
    && HasRow(t, OpcodeXl(19, 16, 0), X_BO_BI_LK, false) && HasRow(t, OpcodeXl(19, 16, 1), X_BO_BI_LK, false)
    && HasRow(t, OpcodeXl(19, 528, 0), X_BO_BI_LK, false) && HasRow(t, OpcodeXl(19, 528, 1), X_BO_BI_LK, false)
  }

  lemma FormsOfBranches()
    ensures B_BO_BI_BD_AA_LK.mask == B_MASK && B_BO_BI_BD_AA_LK.fields == [O_BO, O_BI, O_BD, O_AA, O_LK]
    ensures B_LI_AA_LK.mask == B_MASK && B_LI_AA_LK.fields == [O_LI, O_AA, O_LK]
    ensures X_BO_BI_LK.mask == X_MASK && X_BO_BI_LK.fields == [O_BO, O_BI, O_LK]
  {
    hide MaskOf, Sound, Fit, UsedBy;
  }

  /** In a sorted table the opcode determines the row. */
  lemma SameOpcodeSameRow(t: seq<Row>, opcode: Word, form: Layout, relative: bool, j: nat)
    requires Sorted(t) && HasRow(t, opcode, form, relative) && j < |t| && t[j].opcode == opcode
    ensures t[j].form == form && t[j].relative == relative
  {
    hide Value, Primary, Sound;
    var e :| e in t && e.opcode == opcode && e.form == form && e.relative == relative;
    var i :| 0 <= i < |t| && t[i] == e;
    if i < j { SortedBefore(t, i, j); }
    if j < i { SortedBefore(t, j, i); }
  }

  /** In a sorted table the matching row is the only one. */
  lemma MatchIsUnique(t: seq<Row>, instr: Word, opcode: Word, form: Layout, relative: bool, j: nat)
    requires Sorted(t) && HasRow(t, opcode, form, relative) && And(instr, form.mask) == opcode
    requires j < |t| && Matches(t[j], instr)
    ensures t[j].opcode == opcode
  {
    hide Value, Primary, Sound, And, ComparesHigh, ComparesLow;
    var e :| e in t && e.opcode == opcode && e.form == form && e.relative == relative;
    var i :| 0 <= i < |t| && t[i] == e;
    SortedPins(t, instr, j);
    OneComparison(t[i], instr);
  }

  lemma ClassOfBc(t: seq<Row>, instr: Word, j: nat)
    requires Sorted(t) && BranchRows(t) && j < |t| && Matches(t[j], instr)
    ensures IsBc(instr) <==> BcRow(t[j].opcode)
    ensures IsBc(instr) ==> t[j].form.fields == B_BO_BI_BD_AA_LK.fields
  {
    hide HasRow, And, Aa, IsBc, IsB, IsBclr, IsBcctr, Sound, OpcodeB, B_MASK, B_BO_BI_BD_AA_LK, B_LI_AA_LK, X_BO_BI_LK;
    FormsOfBranches();
    AaOfRows();
    BcBits(instr);
    if IsBc(instr) {
      MatchIsUnique(t, instr, And(instr, B_MASK), B_BO_BI_BD_AA_LK, !Aa(And(instr, B_MASK)), j);
      SameOpcodeSameRow(t, t[j].opcode, B_BO_BI_BD_AA_LK, !Aa(t[j].opcode), j);
    }
    if BcRow(t[j].opcode) {
      SameOpcodeSameRow(t, t[j].opcode, B_BO_BI_BD_AA_LK, !Aa(t[j].opcode), j);
    }
  }

  lemma ClassOfB(t: seq<Row>, instr: Word, j: nat)
    requires Sorted(t) && BranchRows(t) && j < |t| && Matches(t[j], instr)
    ensures IsB(instr) <==> BRow(t[j].opcode)
    ensures IsB(instr) ==> t[j].form.fields == B_LI_AA_LK.fields
  {
    hide HasRow, And, Aa, IsBc, IsB, IsBclr, IsBcctr, Sound, OpcodeI, B_MASK, B_BO_BI_BD_AA_LK, B_LI_AA_LK, X_BO_BI_LK;
    FormsOfBranches();
    AaOfRows();
    BBits(instr);
    if IsB(instr) {
      MatchIsUnique(t, instr, And(instr, B_MASK), B_LI_AA_LK, !Aa(And(instr, B_MASK)), j);
      SameOpcodeSameRow(t, t[j].opcode, B_LI_AA_LK, !Aa(t[j].opcode), j);
    }
    if BRow(t[j].opcode) {
      SameOpcodeSameRow(t, t[j].opcode, B_LI_AA_LK, !Aa(t[j].opcode), j);
    }
  }

  lemma ClassOfBclr(t: seq<Row>, instr: Word, j: nat)
    requires Sorted(t) && BranchRows(t) && j < |t| && Matches(t[j], instr)
    ensures IsBclr(instr) <==> BclrRow(t[j].opcode)
    ensures IsBclr(instr) ==> t[j].form.fields == X_BO_BI_LK.fields
  {
    hide HasRow, And, IsBc, IsB, IsBclr, IsBcctr, Sound, OpcodeXl, X_MASK, B_BO_BI_BD_AA_LK, B_LI_AA_LK, X_BO_BI_LK;
    FormsOfBranches();
    BclrBits(instr);
    if IsBclr(instr) {
      MatchIsUnique(t, instr, And(instr, X_MASK), X_BO_BI_LK, false, j);
      SameOpcodeSameRow(t, t[j].opcode, X_BO_BI_LK, false, j);
    }
    if BclrRow(t[j].opcode) {
      SameOpcodeSameRow(t, t[j].opcode, X_BO_BI_LK, false, j);
    }
  }

  lemma ClassOfBcctr(t: seq<Row>, instr: Word, j: nat)
    requires Sorted(t) && BranchRows(t) && j < |t| && Matches(t[j], instr)
    ensures IsBcctr(instr) <==> BcctrRow(t[j].opcode)
    ensures IsBcctr(instr) ==> t[j].form.fields == X_BO_BI_LK.fields
  {
    hide HasRow, And, IsBc, IsB, IsBclr, IsBcctr, Sound, OpcodeXl, X_MASK, B_BO_BI_BD_AA_LK, B_LI_AA_LK, X_BO_BI_LK;
    FormsOfBranches();
    BcctrBits(instr);
    if IsBcctr(instr) {
      MatchIsUnique(t, instr, And(instr, X_MASK), X_BO_BI_LK, false, j);
      SameOpcodeSameRow(t, t[j].opcode, X_BO_BI_LK, false, j);
    }
    if BcctrRow(t[j].opcode) {
      SameOpcodeSameRow(t, t[j].opcode, X_BO_BI_LK, false, j);
    }
  }

  lemma BoField(instr: Word)
    ensures Field(instr, O_BO) == Bo(instr) && Bo(instr) < 32
  {
  }

  lemma BiField(instr: Word)
    ensures Field(instr, O_BI) == Bi(instr) && Bi(instr) < 32
  {
  }

  lemma AaField(instr: Word)
    ensures Field(instr, O_AA) != 0 <==> Aa(instr)
  {
  }

  lemma LkField(instr: Word)
    ensures Field(instr, O_LK) != 0 <==> Lk(instr)
  {
  }

  // ---------------------------------------------------------------- the successor

  predicate Conditional(instr: Word) { IsBc(instr) || IsBclr(instr) || IsBcctr(instr) }

  predicate Decided(instr: Word, regs: Regs) {
    BiSmall(instr);
    DefinedBo(Bo(instr)) && CtrOk(Bo(instr), regs.ctr) && CondOk(Bo(instr), CrBit(regs.ccr, Bi(instr)))
  }

  lemma BiSmall(instr: Word)
    ensures Bi(instr) < 32
  {
  }

  /** When the stepper takes a conditional branch, form by form of BO, on the counter and one bit of the condition
      register.  In the forms in which it looks at the counter it has just been decremented. */
  lemma TakenByForm(instr: Word, regs: Regs)
    requires Conditional(instr) && !IsB(instr)
    ensures Bi(instr) < 32
    ensures var form, bit := Bo(instr) >> 1, (regs.ccr >> (31 - Bi(instr))) & 1;
            Goes(instr, regs) <==>
              (form == 0 && regs.ctr != 1 && bit == 0) || (form == 1 && regs.ctr == 1 && bit == 0) ||
              (form == 2 && bit == 0) ||
              (form == 4 && regs.ctr != 1 && bit == 1) || (form == 5 && regs.ctr == 1 && bit == 1) ||
              (form == 6 && bit == 1) ||
              (form == 8 && regs.ctr != 1) || (form == 9 && regs.ctr == 1) || form == 10
  {
    hide IsBc, IsB, IsBclr, IsBcctr, Bo, Bi, CrBit, Minus;
    BiSmall(instr);
    BoSmall(instr);
    CrBitIsDigit(regs.ccr, Bi(instr));
    OneBit(regs.ccr, Bi(instr));
    CountsOut(regs.ctr);
    BoForms(Bo(instr));
  }

  lemma OneBit(cr: Word, bi: Word)
    requires bi < 32
    ensures (cr >> (31 - bi)) & 1 == 0 || (cr >> (31 - bi)) & 1 == 1
  {
  }

  lemma CountsOut(ctr: Word)
    ensures Minus(ctr, 1) == 0 <==> ctr == 1
  {
  }

  /** The bits of BO in each form. */
  lemma BoForms(bo: Word)
    requires bo < 32
    ensures DefinedBo(bo) ==> (bo & 0x10 == 0 <==> bo >> 1 < 8) && (bo & 0x08 == 0 <==> bo >> 1 < 4 || bo >> 1 >= 8)
    ensures DefinedBo(bo) ==> (bo & 0x04 == 0 <==> bo >> 1 != 2 && bo >> 1 != 6 && bo >> 1 != 10)
    ensures DefinedBo(bo) ==> (bo & 0x02 == 0 <==> bo >> 1 != 1 && bo >> 1 != 5 && bo >> 1 != 9)
  {
  }

  /** `beq` eight bytes ahead, with the equal bit of the first condition field set. */
  lemma BranchIfEqual(regs: Regs)
    requires regs.ccr == 0x2000_0000
    ensures Goes(0x4182_0008, regs) && RawTarget(0x4182_0008, 0x1000, regs) == 0x1008
  {
    hide CrBit;
    CrBitOfSingle(2, 2);
  }

  /** Where the source sends a branch that is taken. */
  function RawTarget(instr: Word, pc: Word, regs: Regs): Word {
    if IsBclr(instr) then regs.link
    else if IsBcctr(instr) then regs.ctr
    else
      var d := if IsB(instr) then ExtendedLi(instr) else ExtendedBd(instr);
      if Aa(instr) then d else Plus(d, pc)
  }

  function WordAligned(x: Word): Word { x & 0xffff_fffc }

  /** The instruction read is the one at the last multiple of four up to the address. */
  lemma AlignedIs(x: Word)
    ensures WordAligned(x) & 3 == 0 && Minus(x, WordAligned(x)) < 4
  {
  }

  predicate Goes(instr: Word, regs: Regs) { IsB(instr) || (Conditional(instr) && Decided(instr, regs)) }

  /** What the switch over the opcode extracts: the target operand and the operands AA, LK, BO and BI. */
  datatype Branch = NoBranch | Branch(addr: Word, aa: Word, lk: Word, bo: Word, bi: Word, conditional: bool)

  predicate IsBranch(instr: Word) { IsBc(instr) || IsB(instr) || IsBclr(instr) || IsBcctr(instr) }

  /** The switch of `find_next_address`.  Its early returns, for an operand the row does not have, are
      never taken. */
  method DecodeBranch(t: seq<Row>, j: nat, instr: Word, regs: Regs) returns (b: Branch)
    requires Sorted(t) && BranchRows(t) && j < |t| && Matches(t[j], instr)
    ensures b.NoBranch? <==> !IsBranch(instr)
    ensures b.Branch? ==> b.conditional == Conditional(instr) && (b.lk != 0 <==> Lk(instr))
    ensures b.Branch? && b.conditional ==> b.bo == Bo(instr) && b.bi == Bi(instr)
    ensures b.Branch? ==> b.addr == if IsBclr(instr) then regs.link else if IsBcctr(instr) then regs.ctr
                                    else if IsB(instr) then ExtendedLi(instr) else ExtendedBd(instr)
    ensures b.Branch? ==> (b.aa != 0 <==> Aa(instr) || IsBclr(instr) || IsBcctr(instr))
  {
    hide Field, Matches, BranchRows, BcRow, BRow, BclrRow, BcctrRow, Bo, Bi, Aa, Lk, Quad, SignExtended,
         ExtendedBd, ExtendedLi, Sorted, IsBc, IsB, IsBclr, IsBcctr;
    Exclusive(instr);
    var op := t[j];
    ClassOfBc(t, instr, j);
    ClassOfB(t, instr, j);
    ClassOfBclr(t, instr, j);
    ClassOfBcctr(t, instr, j);
    FormsOfBranches();
    if BcRow(op.opcode) {
      b := DecodeBc(op, instr);
    } else if BRow(op.opcode) {
      b := DecodeB(op, instr);
    } else if BcctrRow(op.opcode) {
      b := DecodeRegister(op, instr, regs.ctr);
    } else if BclrRow(op.opcode) {
      b := DecodeRegister(op, instr, regs.link);
    } else {
      b := NoBranch;
    }
  }

  lemma Exclusive(instr: Word)
    ensures IsBc(instr) ==> !IsB(instr) && !IsBclr(instr) && !IsBcctr(instr)
    ensures IsB(instr) ==> !IsBclr(instr) && !IsBcctr(instr)
    ensures IsBclr(instr) ==> !IsBcctr(instr)
  {
  }

  method DecodeBc(op: Entry, instr: Word) returns (b: Branch)
    requires op.form.fields == [O_BO, O_BI, O_BD, O_AA, O_LK]
    ensures b.Branch? && b.conditional && b.addr == ExtendedBd(instr)
    ensures b.bo == Bo(instr) && b.bi == Bi(instr) && (b.aa != 0 <==> Aa(instr)) && (b.lk != 0 <==> Lk(instr))
  {
    hide Field, Bo, Bi, Aa, Lk, Quad, SignExtended, ExtendedBd, ExtendedLi;
    var bd := GetOperandValue(op, instr, O_BD);
    var bo := GetOperandValue(op, instr, O_BO);
    var bi := GetOperandValue(op, instr, O_BI);
    var aa := GetOperandValue(op, instr, O_AA);
    var lk := GetOperandValue(op, instr, O_LK);
    DisplacementIsExtended(instr);
    BoField(instr);
    BiField(instr);
    AaField(instr);
    LkField(instr);
    b := Branch(Quad(SignExtended(bd.value, 14)), aa.value, lk.value, bo.value, bi.value, true);
  }

  method DecodeB(op: Entry, instr: Word) returns (b: Branch)
    requires op.form.fields == [O_LI, O_AA, O_LK]
    ensures b.Branch? && !b.conditional && b.addr == ExtendedLi(instr)
    ensures (b.aa != 0 <==> Aa(instr)) && (b.lk != 0 <==> Lk(instr))
  {
    hide Field, Aa, Lk, Quad, SignExtended, ExtendedBd, ExtendedLi;
    var li := GetOperandValue(op, instr, O_LI);
    var aa := GetOperandValue(op, instr, O_AA);
    var lk := GetOperandValue(op, instr, O_LK);
    DisplacementIsExtended(instr);
    AaField(instr);
    LkField(instr);
    b := Branch(Quad(SignExtended(li.value, 24)), aa.value, lk.value, 0, 0, false);
  }

  method DecodeRegister(op: Entry, instr: Word, register: Word) returns (b: Branch)
    requires op.form.fields == [O_BO, O_BI, O_LK]
    ensures b.Branch? && b.conditional && b.addr == register && b.aa != 0
    ensures b.bo == Bo(instr) && b.bi == Bi(instr) && (b.lk != 0 <==> Lk(instr))
  {
    hide Field, Bo, Bi, Lk;
    var bo := GetOperandValue(op, instr, O_BO);
    var bi := GetOperandValue(op, instr, O_BI);
    var lk := GetOperandValue(op, instr, O_LK);
    BoField(instr);
    BiField(instr);
    LkField(instr);
    b := Branch(register, 1, lk.value, bo.value, bi.value, true);
  }

  /** `find_next_address`, complete: for every instruction and all register contents. */
  method FindNextAddress(t: seq<Row>, memory: Word -> Word, regs: Regs, stepOver: bool) returns (r: Option<Word>)
    requires Sorted(t) && BranchRows(t)
    ensures var instr := memory(WordAligned(regs.nip));
            r.Some? <==> exists j :: 0 <= j < |t| && Matches(t[j], instr)
    ensures var pc := WordAligned(regs.nip);
            var instr := memory(pc);
            r.Some? ==> r.value == if Goes(instr, regs) && !(stepOver && Lk(instr))
                                   then RawTarget(instr, pc, regs) else Plus(pc, 4)
  {
    hide Field, Matches, BranchRows, IsBc, IsB, IsBclr, IsBcctr, Bo, Bi, Aa, Lk, DefinedBo, CtrOk, CondOk, CrBit,
         Plus, ExtendedBd, ExtendedLi, Sorted, WordAligned, Goes, RawTarget;
    var pc := WordAligned(regs.nip);
    var instr := memory(pc);
    var found := FindRow(t, instr);
    if found.None? { return None; }
    var b := DecodeBranch(t, found.value, instr, regs);
    var next := Successor(b, instr, pc, regs, stepOver);
    return Some(next);
  }

  /** The end of `find_next_address`: the decision, and the two candidates for the next address. */
  method Successor(b: Branch, instr: Word, pc: Word, regs: Regs, stepOver: bool) returns (r: Word)
    requires b.NoBranch? <==> !IsBranch(instr)
    requires b.Branch? ==> b.conditional == Conditional(instr) && (b.lk != 0 <==> Lk(instr))
    requires b.Branch? && b.conditional ==> b.bo == Bo(instr) && b.bi == Bi(instr)
    requires b.Branch? ==> b.addr == if IsBclr(instr) then regs.link else if IsBcctr(instr) then regs.ctr
                                     else if IsB(instr) then ExtendedLi(instr) else ExtendedBd(instr)
    requires b.Branch? ==> (b.aa != 0 <==> Aa(instr) || IsBclr(instr) || IsBcctr(instr))
    ensures r == if Goes(instr, regs) && !(stepOver && Lk(instr)) then RawTarget(instr, pc, regs) else Plus(pc, 4)
  {
    hide IsBc, IsB, IsBclr, IsBcctr, Bo, Bi, Aa, Lk, DefinedBo, CtrOk, CondOk, CrBit, Plus, ExtendedBd, ExtendedLi;
    BiSmall(instr);
    BoSmall(instr);
    Exclusive(instr);
    var ctrOk, condOk := false, false;
    if b.Branch? && b.conditional {
      ctrOk, condOk := BranchDecision(b.bo, regs.ctr, CrBit(regs.ccr, b.bi));
    }
    var step, next := Plus(pc, 4), Plus(pc, 4);
    if b.Branch? && (!b.conditional || (ctrOk && condOk)) {
      step := if b.aa != 0 then b.addr else Plus(b.addr, pc);
      next := if b.lk != 0 then Plus(pc, 4) else step;
    }
    return if stepOver then next else step;
  }

  lemma BoSmall(instr: Word)
    ensures Bo(instr) < 32
  {
  }

  // ---------------------------------------------------------------- against the architecture

  /** Whether the architecture takes the branch.  bcctr never counts. */
  predicate ArchTaken(instr: Word, regs: Regs) {
    BiSmall(instr);
    var cond := CondOk(Bo(instr), CrBit(regs.ccr, Bi(instr)));
    IsB(instr) || ((IsBc(instr) || IsBclr(instr)) && CtrOk(Bo(instr), regs.ctr) && cond) || (IsBcctr(instr) && cond)
  }

  /** The next instruction address; the low two bits of LR and CTR are ignored. */
  function ArchTarget(instr: Word, pc: Word, regs: Regs): Word {
    if IsBclr(instr) then WordAligned(regs.link)
    else if IsBcctr(instr) then WordAligned(regs.ctr)
    else
      var d := if IsB(instr) then ExtendedLi(instr) else ExtendedBd(instr);
      if Aa(instr) then d else Plus(d, pc)
  }

  /** The instruction form is valid: BO is a defined encoding, and bcctr does not decrement the counter. */
  predicate ValidForm(instr: Word) {
    (Conditional(instr) ==> DefinedBo(Bo(instr))) && (IsBcctr(instr) ==> Bo(instr) & 0x04 != 0)
  }

  /** For every valid form the stepper branches exactly when the architecture does; where it branches to
      agrees exactly when the register it branches through, if any, is word-aligned. */
  lemma FollowsArchitecture(instr: Word, pc: Word, regs: Regs)
    requires ValidForm(instr)
    ensures Goes(instr, regs) <==> ArchTaken(instr, regs)
    ensures RawTarget(instr, pc, regs) == ArchTarget(instr, pc, regs) <==>
            (IsBclr(instr) ==> regs.link == WordAligned(regs.link)) &&
            (IsBcctr(instr) ==> regs.ctr == WordAligned(regs.ctr))
  {
    hide IsBc, IsB, IsBclr, IsBcctr, Bo, Bi, Aa, DefinedBo, CondOk, CrBit, Plus, ExtendedBd, ExtendedLi, WordAligned;
    Exclusive(instr);
  }

  /** Registers that tell an invalid form from a valid one: the condition of the branch holds; so does its
      test of the counter, unless it is bcctr with a defined BO, where the stepper counts and must not. */
  function Telltale(instr: Word): Regs {
    var counts := (Bo(instr) & 0x02 != 0) != (IsBcctr(instr) && DefinedBo(Bo(instr)));
    Regs(0, if counts then 1 else 0, if Bo(instr) & 0x08 != 0 then 0xffff_ffff else 0, 0)
  }

  lemma TelltaleCondition(instr: Word)
    requires Bi(instr) < 32
    ensures CondOk(Bo(instr), CrBit(Telltale(instr).ccr, Bi(instr)))
  {
    hide Bo, Bi;
    CrAll(Bi(instr));
  }

  lemma CrAll(bi: Word)
    requires bi < 32
    ensures CrBit(0xffff_ffff, bi) && !CrBit(0, bi)
  {
  }

  lemma TelltaleCounter(instr: Word)
    ensures CtrOk(Bo(instr), Telltale(instr).ctr) <==>
            Bo(instr) & 0x04 != 0 || !(IsBcctr(instr) && DefinedBo(Bo(instr)))
  {
    hide IsBcctr, Bo, DefinedBo;
    assert Minus(1, 1) == 0 && Minus(0, 1) == 0xffff_ffff;
  }

  /** And for those only: the stepper decides a conditional branch as the architecture does, whatever the
      registers hold, exactly if the form is valid. */
  lemma FollowsExactlyValidForms(instr: Word)
    requires Conditional(instr)
    ensures (forall regs :: Goes(instr, regs) <==> ArchTaken(instr, regs)) <==> ValidForm(instr)
  {
    hide IsBc, IsB, IsBclr, IsBcctr, Bo, Bi, CondOk, CrBit, CtrOk, DefinedBo, Telltale;
    BiSmall(instr);
    Exclusive(instr);
    if ValidForm(instr) {
      forall regs ensures Goes(instr, regs) <==> ArchTaken(instr, regs) { FollowsArchitecture(instr, 0, regs); }
    } else {
      TelltaleCondition(instr);
      TelltaleCounter(instr);
      assert Goes(instr, Telltale(instr)) != ArchTaken(instr, Telltale(instr));
    }
  }

  /** Branch always, to pc + 8, with one of the z bits set. */
  const BRANCH_ALWAYS_Z: Word := 0x42c0_0008

  /** The architecture always takes it, the stepper never does. */
  lemma AlwaysFallsThrough(regs: Regs)
    ensures IsBc(BRANCH_ALWAYS_Z) && Bo(BRANCH_ALWAYS_Z) == 22 && ExtendedBd(BRANCH_ALWAYS_Z) == 8
    ensures ArchTaken(BRANCH_ALWAYS_Z, regs) && !Goes(BRANCH_ALWAYS_Z, regs)
  {
    hide CrBit;
    AlwaysBits();
  }

  lemma AlwaysBits()
    ensures IsBc(BRANCH_ALWAYS_Z) && Bo(BRANCH_ALWAYS_Z) == 22 && ExtendedBd(BRANCH_ALWAYS_Z) == 8
    ensures !IsB(BRANCH_ALWAYS_Z)
  {
  }

  // ---------------------------------------------------------------- assembler, disassembler and stepper agree

  /** The rows of the branches with an address, and the operand that holds it. */
  predicate AddressBranch(e: Row, o: Operand) {
    || (o == O_LI && BRow(e.opcode) && e.form == B_LI_AA_LK)
    || (o == O_BD && BcRow(e.opcode) && e.form == B_BO_BI_BD_AA_LK)
  }

  lemma AaOfMasked(instr: Word)
    ensures Aa(And(instr, B_MASK)) == Aa(instr)
  {
  }

  lemma WantedNext(o: Operand, rest: seq<Operand>)
    ensures Wanted([o] + rest) == Wanted(rest) + if o.hint.Silent? then 0 else 1
  {
    assert ([o] + rest)[1..] == rest;
  }

  lemma WantedLi()
    ensures Wanted([O_LI, O_AA, O_LK]) == 1 && Wanted([O_LI, O_AA, O_LK][..0]) == 0
    ensures [O_LI, O_AA, O_LK][0] == O_LI && !O_LI.hint.Silent?
  {
    WantedNext(O_LK, []);
    WantedNext(O_AA, [O_LK] + []);
    WantedNext(O_LI, [O_AA] + ([O_LK] + []));
    assert [O_LI] + ([O_AA] + ([O_LK] + [])) == [O_LI, O_AA, O_LK];
  }

  lemma WantedBd()
    ensures Wanted([O_BO, O_BI, O_BD, O_AA, O_LK]) == 3 && Wanted([O_BO, O_BI, O_BD, O_AA, O_LK][..2]) == 2
    ensures [O_BO, O_BI, O_BD, O_AA, O_LK][2] == O_BD && !O_BD.hint.Silent?
  {
    WantedNext(O_LK, []);
    WantedNext(O_AA, [O_LK] + []);
    WantedNext(O_BD, [O_AA] + ([O_LK] + []));
    WantedNext(O_BI, [O_BD] + ([O_AA] + ([O_LK] + [])));
    WantedNext(O_BO, [O_BI] + ([O_BD] + ([O_AA] + ([O_LK] + []))));
    assert [O_BO] + ([O_BI] + ([O_BD] + ([O_AA] + ([O_LK] + [])))) == [O_BO, O_BI, O_BD, O_AA, O_LK];
    WantedNext(O_BI, []);
    WantedNext(O_BO, [O_BI] + []);
    assert [O_BO, O_BI, O_BD, O_AA, O_LK][..2] == [O_BO] + ([O_BI] + []);
  }

  /** What the assembler stores for an address: the distance, or for an absolute branch the address itself. */
  function Distance(e: Entry, target: Word, pc: Word): Word {
    if Aa(e.opcode) then target else Minus(target, pc)
  }

  /** A branch assembled at `pc` for `target`, whatever its other operands: the disassembler shows, and the stepper
      takes, one and the same address, and that address is `target` exactly when what is stored is a multiple of
      four in the signed range of the field. */
  lemma BranchesAgree(e: Row, o: Operand, data: seq<Word>, pc: Word, target: Word, regs: Regs)
    requires AddressBranch(e, o) && |data| == Wanted(e.form.fields) > 0
    requires data[|data| - 1] == Encoded(Distance(e, target, pc), o)
    ensures var instr := Packed(e.opcode, e.form.fields, data);
            && Aa(instr) == Aa(e.opcode) && (IsB(instr) || IsBc(instr))
            && RawTarget(instr, pc, regs) == Displayed(instr, o, !Aa(instr), pc)
            && (Displayed(instr, o, !Aa(instr), pc) == target <==> Reaches(Distance(e, target, pc), o))
  {
    hide Field, And, Ones, Packed, Join, Clear, Within, Fit, UsedBy, Encoded, Reach14, Reach24, Plus, Minus, IsB, IsBc,
         IsBclr, IsBcctr, Aa, BRow, BcRow, Quad, SignExtended, ExtendedBd, ExtendedLi, Wanted, B_LI_AA_LK,
         B_BO_BI_BD_AA_LK;
    var fields, mask := e.form.fields, e.form.mask;
    var instr := Packed(e.opcode, fields, data);
    FormsOfBranches();
    WantedLi();
    WantedBd();
    PackedKeepsOpcode(e, data);
    BcBits(instr);
    BBits(instr);
    AaOfMasked(instr);
    Exclusive(instr);
    FieldsClearOfMask(fields, mask);
    ClearWithin(UsedBy(fields), mask, e.opcode);
    PackedRecovers(e.opcode, fields, mask, data, if o == O_LI then 0 else 2);
    DisplacementIsExtended(instr);
    if Aa(instr) { AbsoluteRoundTrip(o, target, instr, pc); } else { TargetRoundTrip(o, pc, target, instr); }
  }

  lemma {:induction false} DataOf(memaddr: Word, e: Entry, fields: seq<Operand>, words: seq<string>, sprs: seq<SprInfo>,
                                  k: nat)
    requires AllData(memaddr, e, fields, words, sprs).Ok? && k < |fields| && !fields[k].hint.Silent?
    ensures var w, ds := Wanted(fields[..k]), AllData(memaddr, e, fields, words, sprs).value;
            w < |words| && w < |ds| && OperandData(memaddr, e, fields[k], words[w], sprs) == Ok(ds[w])
    decreases |fields|
  {
    hide OperandData;
    if k > 0 {
      assert fields[..k] == [fields[0]] + fields[1..][..k - 1];
      WantedNext(fields[0], fields[1..][..k - 1]);
      DataOf(memaddr, e, fields[1..], if fields[0].hint.Silent? then words else words[1..], sprs, k - 1);
    } else {
      assert fields[..0] == [];
    }
  }

  /** In the source's table a row of a branch with an address has that operand, and is relative exactly if AA is
      clear. */
  lemma AddressRow(t: seq<Row>, j: nat)
    requires Sorted(t) && BranchRows(t) && j < |t| && (BRow(t[j].opcode) || BcRow(t[j].opcode))
    ensures t[j].relative == !Aa(t[j].opcode)
    ensures BRow(t[j].opcode) ==> AddressBranch(t[j], O_LI)
    ensures BcRow(t[j].opcode) ==> AddressBranch(t[j], O_BD)
  {
    hide HasRow, Aa, Sound, OpcodeI, OpcodeB, B_BO_BI_BD_AA_LK, B_LI_AA_LK, X_BO_BI_LK;
    AaOfRows();
    RowsDiffer(t[j].opcode);
    if BRow(t[j].opcode) {
      SameOpcodeSameRow(t, t[j].opcode, B_LI_AA_LK, !Aa(t[j].opcode), j);
    } else {
      SameOpcodeSameRow(t, t[j].opcode, B_BO_BI_BD_AA_LK, !Aa(t[j].opcode), j);
    }
  }

  /** From text to address: what `asmppc` makes of a branch whose address operand reads as `target` is shown by the
      disassembler, and stepped to, at one and the same address, which is `target` exactly when the distance from
      `memaddr`, or for the absolute branches the address itself, is within reach of the operand. */
  lemma AssembledBranch(t: seq<Row>, j: nat, memaddr: Word, words: seq<string>, sprs: seq<SprInfo>, regs: Regs)
    requires Sorted(t) && BranchRows(t) && j < |t| && (BRow(t[j].opcode) || BcRow(t[j].opcode))
    requires Assembled(t[j].opcode, memaddr, t[j], t[j].form.fields, words, sprs).Ok?
    ensures var e := t[j]; var (o, k) := if BRow(e.opcode) then (O_LI, 0) else (O_BD, 2);
            && |words| > k
            && var instr := Assembled(e.opcode, memaddr, e, e.form.fields, words, sprs).value;
               var target := ReadNumber(words[k]);
               && e.relative == !Aa(instr) && Matches(e, instr)
               && RawTarget(instr, memaddr, regs) == Displayed(instr, o, e.relative, memaddr)
               && (Displayed(instr, o, e.relative, memaddr) == target <==>
                   Reaches(if Aa(instr) then target else Minus(target, memaddr), o))
  {
    hide Aa, Sound, BRow, BcRow, AllData, Packed, Encoded, Displayed, RawTarget, Reaches, IsB, IsBc, Wanted, ReadNumber,
         Fit, UsedBy, B_BO_BI_BD_AA_LK, B_LI_AA_LK, Sorted, BranchRows, And, Within;
    var e := t[j];
    var fields := e.form.fields;
    AddressRow(t, j);
    FormsOfBranches();
    WantedLi();
    WantedBd();
    RowsDiffer(e.opcode);
    var (o, k) := if BRow(e.opcode) then (O_LI, 0) else (O_BD, 2);
    DataOf(memaddr, e, fields, words, sprs, k);
    var ds := AllData(memaddr, e, fields, words, sprs).value;
    BranchesAgree(e, o, ds, memaddr, ReadNumber(words[k]), regs);
    PackedKeepsOpcode(e, ds);
  }

  lemma RowsDiffer(op: Word)
    ensures !(BRow(op) && BcRow(op))
  {
  }

  // ---------------------------------------------------------------- the table of the source

  lemma {:induction false} InFlatten(parts: seq<Table>, k: nat, i: nat)
    requires k < |parts| && i < |parts[k]|
    ensures parts[k][i] in Flatten(parts)
  {
    if k > 0 { InFlatten(parts[1..], k - 1, i); }
  }

  lemma Parts()
    ensures OPCODES_8 in PARTS && OPCODES_12 in PARTS && OPCODES_16 in PARTS
    ensures OPCODES_20 in PARTS && OPCODES_28 in PARTS && OPCODES_32 in PARTS
  {
    hide PARTS_0, PARTS_52, PARTS_104, PARTS_156,
         OPCODES_8, OPCODES_12, OPCODES_16, OPCODES_20, OPCODES_28, OPCODES_32;
    FirstParts();
    assert forall part | part in PARTS_0 :: part in PARTS;
  }

  lemma FirstParts()
    ensures OPCODES_8 in PARTS_0 && OPCODES_12 in PARTS_0 && OPCODES_16 in PARTS_0
    ensures OPCODES_20 in PARTS_0 && OPCODES_28 in PARTS_0 && OPCODES_32 in PARTS_0
  {
    hide Before, Sorted, Value, Primary, Sound, Fit, UsedBy, Join, Clear, Within, MaskOf, Shl, Ones,
         OPCODES_0, OPCODES_4, OPCODES_8, OPCODES_12, OPCODES_16, OPCODES_20, OPCODES_24, OPCODES_28, OPCODES_32,
         OPCODES_36, OPCODES_40, OPCODES_44, OPCODES_48;
  }

  lemma PartIn(part: Table, opcode: Word, form: Layout, relative: bool)
    requires part in PARTS && HasRow(part, opcode, form, relative)
    ensures HasRow(OPCODES, opcode, form, relative)
  {
    hide PARTS, Flatten, Before, Sorted, Value, Primary, Sound, Fit, UsedBy, Join, Within, MaskOf, Ones;
    var e :| e in part && e.opcode == opcode && e.form == form && e.relative == relative;
    var i :| 0 <= i < |part| && part[i] == e;
    var k :| 0 <= k < |PARTS| && PARTS[k] == part;
    InFlatten(PARTS, k, i);
  }

  lemma RowsOf8()
    ensures HasRow(OPCODES_8, OpcodeB(16, 0, 0), B_BO_BI_BD_AA_LK, true)
    ensures HasRow(OPCODES_8, OpcodeB(16, 0, 1), B_BO_BI_BD_AA_LK, true)
    ensures HasRow(OPCODES_8, OpcodeB(16, 1, 0), B_BO_BI_BD_AA_LK, false)
  {
    hide Value, Primary, Sound, Fit, UsedBy, Join, Clear, Within, MaskOf, Shl, Ones;
    assert OPCODES_8[1] in OPCODES_8;
    assert OPCODES_8[2] in OPCODES_8;
    assert OPCODES_8[3] in OPCODES_8;
  }

  lemma RowsOf12()
    ensures HasRow(OPCODES_12, OpcodeB(16, 1, 1), B_BO_BI_BD_AA_LK, false)
    ensures HasRow(OPCODES_12, OpcodeI(18, 0, 0), B_LI_AA_LK, true)
    ensures HasRow(OPCODES_12, OpcodeI(18, 0, 1), B_LI_AA_LK, true)
  {
    hide Value, Primary, Sound, Fit, UsedBy, Join, Clear, Within, MaskOf, Shl, Ones;
    assert OPCODES_12[0] in OPCODES_12;
    assert OPCODES_12[2] in OPCODES_12;
    assert OPCODES_12[3] in OPCODES_12;
  }

  lemma RowsOf16()
    ensures HasRow(OPCODES_16, OpcodeI(18, 1, 0), B_LI_AA_LK, false)
    ensures HasRow(OPCODES_16, OpcodeI(18, 1, 1), B_LI_AA_LK, false)
    ensures HasRow(OPCODES_16, OpcodeXl(19, 16, 0), X_BO_BI_LK, false)
  {
    hide Value, Primary, Sound, Fit, UsedBy, Join, Clear, Within, MaskOf, Shl, Ones;
    assert OPCODES_16[0] in OPCODES_16;
    assert OPCODES_16[1] in OPCODES_16;
    assert OPCODES_16[3] in OPCODES_16;
  }

  lemma RowsOf20()
    ensures HasRow(OPCODES_20, OpcodeXl(19, 16, 1), X_BO_BI_LK, false)
  {
    hide Value, Primary, Sound, Fit, UsedBy, Join, Clear, Within, MaskOf, Shl, Ones;
    assert OPCODES_20[0] in OPCODES_20;
  }

  lemma RowsOf28()
    ensures HasRow(OPCODES_28, OpcodeXl(19, 528, 0), X_BO_BI_LK, false)
  {
    hide Value, Primary, Sound, Fit, UsedBy, Join, Clear, Within, MaskOf, Shl, Ones;
    assert OPCODES_28[3] in OPCODES_28;
  }

  lemma RowsOf32()
    ensures HasRow(OPCODES_32, OpcodeXl(19, 528, 1), X_BO_BI_LK, false)
  {
    hide Value, Primary, Sound, Fit, UsedBy, Join, Clear, Within, MaskOf, Shl, Ones;
    assert OPCODES_32[0] in OPCODES_32;
  }

  /** The table of the source meets what `FindRow` and `FindNextAddress` ask of it. */
  lemma TableHasBranches()
    ensures Sorted(OPCODES) && BranchRows(OPCODES)
  {
    hide OPCODES, PARTS, HasRow, Sorted, OpcodeB, OpcodeI, OpcodeXl, B_BO_BI_BD_AA_LK, B_LI_AA_LK, X_BO_BI_LK,
         OPCODES_8, OPCODES_12, OPCODES_16, OPCODES_20, OPCODES_28, OPCODES_32;
    TableSorted();
    Parts();
    RowsOf8();
    RowsOf12();
    RowsOf16();
    RowsOf20();
    RowsOf28();
    RowsOf32();
    PartIn(OPCODES_8, OpcodeB(16, 0, 0), B_BO_BI_BD_AA_LK, true);
    PartIn(OPCODES_8, OpcodeB(16, 0, 1), B_BO_BI_BD_AA_LK, true);
    PartIn(OPCODES_8, OpcodeB(16, 1, 0), B_BO_BI_BD_AA_LK, false);
    PartIn(OPCODES_12, OpcodeB(16, 1, 1), B_BO_BI_BD_AA_LK, false);
    PartIn(OPCODES_12, OpcodeI(18, 0, 0), B_LI_AA_LK, true);
    PartIn(OPCODES_12, OpcodeI(18, 0, 1), B_LI_AA_LK, true);
    PartIn(OPCODES_16, OpcodeI(18, 1, 0), B_LI_AA_LK, false);
    PartIn(OPCODES_16, OpcodeI(18, 1, 1), B_LI_AA_LK, false);
    PartIn(OPCODES_16, OpcodeXl(19, 16, 0), X_BO_BI_LK, false);
    PartIn(OPCODES_20, OpcodeXl(19, 16, 1), X_BO_BI_LK, false);
    PartIn(OPCODES_28, OpcodeXl(19, 528, 0), X_BO_BI_LK, false);
    PartIn(OPCODES_32, OpcodeXl(19, 528, 1), X_BO_BI_LK, false);
  }
}
