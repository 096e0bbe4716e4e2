/** Branch displacements (u-boot/common/bedbug.c): how the assembler encodes a target, how the
    disassembler shows it, and where the single-stepper goes. */
module Branches {
  import opened BitVectors
  import opened PowerPcTables
  import opened OperandFields

  predicate Negative(x: Word) { x & 0x8000_0000 != 0 }

  /** `x >> 2` on a signed long. */
  function Quarter(x: Word): Word { if Negative(x) then (x >> 2) | 0xc000_0000 else x >> 2 }

  /** The operand value `parse_operand` makes of a displacement. */
  function Encoded(displacement: Word, o: Operand): Word {
    var data := And(Quarter(displacement), Shr(Ones(o), 1));
    if Negative(displacement) then Join(data, Shl(1, o.bits - 1)) else data
  }

  function Plus(a: Word, b: Word): Word { a + b }

  function Minus(a: Word, b: Word): Word { a - b }

  function Quad(x: Word): Word { x << 2 }

  /** The sign extension of `print_operands` and `find_next_address`. */
  function SignExtended(operand: Word, bits: Word): Word {
    if And(operand, Shl(1, bits - 1)) != 0 then Minus(operand, Shl(1, bits)) else operand
  }

  /** The displacement of a branch instruction, in bytes. */
  function Displacement(instr: Word, o: Operand): Word { Quad(SignExtended(Field(instr, o), o.bits)) }

  /** The address `print_operands` shows. */
  function Displayed(instr: Word, o: Operand, relative: bool, virtual: Word): Word {
    if relative then Plus(Displacement(instr, o), virtual) else Displacement(instr, o)
  }

  // ---------------------------------------------------------------- the 14-bit form

  lemma BdConstants()
    ensures Ones(O_BD) == 0x3fff && Shr(0x3fff, 1) == 0x1fff
    ensures Shl(1, O_BD.bits - 1) == 0x2000 && Shl(1, O_BD.bits) == 0x4000
  {
  }

  lemma Borrow14(a: Word)
    requires Clear(a, 0xffff_c000)
    ensures Minus(a, 0x4000) == Join(a, 0xffff_c000)
  {
  }

  function Extend14(a: Word): Word { Quad(if And(a, 0x2000) != 0 then Join(a, 0xffff_c000) else a) }

  function Encode14(d: Word): Word {
    if Negative(d) then (Quarter(d) & 0x1fff) | 0x2000 else Quarter(d) & 0x1fff
  }

  lemma Encoded14(d: Word)
    ensures Encoded(d, O_BD) == Encode14(d)
  {
    hide Ones, Shr, Shl, Negative, Quarter;
    BdConstants();
  }

  lemma Extended14(a: Word)
    requires Clear(a, 0xffff_c000)
    ensures Quad(SignExtended(a, O_BD.bits)) == Extend14(a)
  {
    hide Ones, Shr, Shl, And, Join, Minus, Quad, Clear;
    BdConstants();
    Borrow14(a);
  }

  lemma Forward14(d: Word)
    requires !Negative(d)
    ensures Extend14(And(Encode14(d), 0x3fff)) == And(d, 0x7ffc)
  {
  }

  lemma Backward14(d: Word)
    requires Negative(d)
    ensures Extend14(And(Encode14(d), 0x3fff)) == Join(And(d, 0x7ffc), 0xffff_8000)
  {
  }

  /** A multiple of four from -2^15 up to, but not including, 2^15. */
  predicate Reach14(d: Word) { d & 3 == 0 && (d & 0xffff_8000 == 0 || d & 0xffff_8000 == 0xffff_8000) }

  lemma ForwardExact14(d: Word)
    requires !Negative(d)
    ensures And(d, 0x7ffc) == d <==> Reach14(d)
  {
  }

  lemma BackwardExact14(d: Word)
    requires Negative(d)
    ensures Join(And(d, 0x7ffc), 0xffff_8000) == d <==> Reach14(d)
  {
  }

  lemma LowBits14(a: Word)
    ensures Clear(And(a, 0x3fff), 0xffff_c000)
  {
  }

  /** An encoded displacement comes back exactly when the field can hold it. */
  lemma RoundTrip14(d: Word)
    ensures Quad(SignExtended(And(Encoded(d, O_BD), Ones(O_BD)), O_BD.bits)) == d <==> Reach14(d)
  {
    hide Ones, Shr, Shl, Encoded, Encode14, Extend14, SignExtended, Reach14, Negative, And, Join, Quad, Clear;
    BdConstants();
    Encoded14(d);
    var a := And(Encode14(d), 0x3fff);
    LowBits14(Encode14(d));
    Extended14(a);
    if Negative(d) {
      Backward14(d);
      BackwardExact14(d);
    } else {
      Forward14(d);
      ForwardExact14(d);
    }
  }

  // ---------------------------------------------------------------- the 24-bit form

  lemma LiConstants()
    ensures Ones(O_LI) == 0xff_ffff && Shr(0xff_ffff, 1) == 0x7f_ffff
    ensures Shl(1, O_LI.bits - 1) == 0x80_0000 && Shl(1, O_LI.bits) == 0x100_0000
  {
  }

  lemma Borrow24(a: Word)
    requires Clear(a, 0xff00_0000)
    ensures Minus(a, 0x100_0000) == Join(a, 0xff00_0000)
  {
  }

  function Extend24(a: Word): Word { Quad(if And(a, 0x80_0000) != 0 then Join(a, 0xff00_0000) else a) }

  function Encode24(d: Word): Word {
    if Negative(d) then (Quarter(d) & 0x7f_ffff) | 0x80_0000 else Quarter(d) & 0x7f_ffff
  }

  lemma Encoded24(d: Word)
    ensures Encoded(d, O_LI) == Encode24(d)
  {
    hide Ones, Shr, Shl, Negative, Quarter;
    LiConstants();
  }

  lemma Extended24(a: Word)
    requires Clear(a, 0xff00_0000)
    ensures Quad(SignExtended(a, O_LI.bits)) == Extend24(a)
  {
    hide Ones, Shr, Shl, And, Join, Minus, Quad, Clear;
    LiConstants();
    Borrow24(a);
  }

  lemma Forward24(d: Word)
    requires !Negative(d)
    ensures Extend24(And(Encode24(d), 0xff_ffff)) == And(d, 0x1ff_fffc)
  {
  }

  lemma Backward24(d: Word)
    requires Negative(d)
    ensures Extend24(And(Encode24(d), 0xff_ffff)) == Join(And(d, 0x1ff_fffc), 0xfe00_0000)
  {
  }

  /** A multiple of four from -2^25 up to, but not including, 2^25. */
  predicate Reach24(d: Word) { d & 3 == 0 && (d & 0xfe00_0000 == 0 || d & 0xfe00_0000 == 0xfe00_0000) }

  lemma ForwardExact24(d: Word)
    requires !Negative(d)
    ensures And(d, 0x1ff_fffc) == d <==> Reach24(d)
  {
  }

  lemma BackwardExact24(d: Word)
    requires Negative(d)
    ensures Join(And(d, 0x1ff_fffc), 0xfe00_0000) == d <==> Reach24(d)
  {
  }

  lemma LowBits24(a: Word)
    ensures Clear(And(a, 0xff_ffff), 0xff00_0000)
  {
  }

  lemma RoundTrip24(d: Word)
    ensures Quad(SignExtended(And(Encoded(d, O_LI), Ones(O_LI)), O_LI.bits)) == d <==> Reach24(d)
  {
    hide Ones, Shr, Shl, Encoded, Encode24, Extend24, SignExtended, Reach24, Negative, And, Join, Quad, Clear;
    LiConstants();
    Encoded24(d);
    var a := And(Encode24(d), 0xff_ffff);
    LowBits24(Encode24(d));
    Extended24(a);
    if Negative(d) {
      Backward24(d);
      BackwardExact24(d);
    } else {
      Forward24(d);
      ForwardExact24(d);
    }
  }

  // ---------------------------------------------------------------- targets

  lemma PlusOfDifference(a: Word, b: Word)
    ensures Plus(a - b, b) == a
  {
  }

  lemma MinusOfSum(a: Word, b: Word)
    ensures Minus(a + b, b) == a
  {
  }

  lemma SumAndDifference(a: Word, b: Word)
    ensures Plus(a, b) == a + b && Minus(a, b) == a - b
  {
  }

  lemma AddBack(a: Word, b: Word)
    ensures Plus(Minus(a, b), b) == a && Minus(Plus(a, b), b) == a
  {
    hide Plus, Minus;
    PlusOfDifference(a, b);
    MinusOfSum(a, b);
    SumAndDifference(a, b);
  }

  /** The displacements a branch operand can hold: a multiple of four in its signed range. */
  predicate Reaches(d: Word, o: Operand) { if o == O_BD then Reach14(d) else Reach24(d) }

  /** The address shown, from the same base, for an instruction that holds an encoded target is that
      target exactly when the field can hold the displacement. */
  lemma TargetRoundTrip(o: Operand, base: Word, target: Word, instr: Word)
    requires o == O_BD || o == O_LI
    requires Field(instr, o) == And(Encoded(Minus(target, base), o), Ones(o))
    ensures Displayed(instr, o, true, base) == target <==> Reaches(Minus(target, base), o)
  {
    hide Ones, Encoded, SignExtended, Reach14, Reach24, Field, And, Quad, Plus, Minus;
    var d := Displacement(instr, o);
    if o == O_BD { RoundTrip14(Minus(target, base)); } else { RoundTrip24(Minus(target, base)); }
    AddBack(d, base);
    AddBack(target, base);
  }

  /** Branches to absolute addresses. */
  lemma AbsoluteRoundTrip(o: Operand, target: Word, instr: Word, virtual: Word)
    requires o == O_BD || o == O_LI
    requires Field(instr, o) == And(Encoded(target, o), Ones(o))
    ensures Displayed(instr, o, false, virtual) == target <==> Reaches(target, o)
  {
    hide Ones, Encoded, SignExtended, Reach14, Reach24, Field, And, Quad, Plus, Minus;
    if o == O_BD { RoundTrip14(target); } else { RoundTrip24(target); }
  }

  // ---------------------------------------------------------------- displacements as the manual defines them

  /** EXTS(BD || 0b00). */
  function ExtendedBd(instr: Word): Word {
    if instr & 0x8000 != 0 then 0xffff_0000 | (instr & 0xfffc) else instr & 0xfffc
  }

  /** EXTS(LI || 0b00). */
  function ExtendedLi(instr: Word): Word {
    if instr & 0x200_0000 != 0 then 0xfc00_0000 | (instr & 0x3ff_fffc) else instr & 0x3ff_fffc
  }

  function BdBits(instr: Word): Word { (instr >> 2) & 0x3fff }

  function LiBits(instr: Word): Word { (instr >> 2) & 0xff_ffff }

  lemma FieldBits(instr: Word)
    ensures Field(instr, O_BD) == BdBits(instr)
    ensures Field(instr, O_LI) == LiBits(instr)
  {
  }

  lemma BdSign(instr: Word)
    ensures Clear(BdBits(instr), 0xffff_c000)
    ensures And(BdBits(instr), 0x2000) != 0 <==> instr & 0x8000 != 0
    ensures instr & 0x8000 != 0 ==> Quad(Join(BdBits(instr), 0xffff_c000)) == 0xffff_0000 | (instr & 0xfffc)
    ensures instr & 0x8000 == 0 ==> Quad(BdBits(instr)) == instr & 0xfffc
  {
  }

  lemma LiSign(instr: Word)
    ensures Clear(LiBits(instr), 0xff00_0000)
    ensures And(LiBits(instr), 0x80_0000) != 0 <==> instr & 0x200_0000 != 0
    ensures instr & 0x200_0000 != 0 ==> Quad(Join(LiBits(instr), 0xff00_0000)) == 0xfc00_0000 | (instr & 0x3ff_fffc)
    ensures instr & 0x200_0000 == 0 ==> Quad(LiBits(instr)) == instr & 0x3ff_fffc
  {
  }

  lemma DisplacementIsExtended(instr: Word)
    ensures Displacement(instr, O_BD) == ExtendedBd(instr)
    ensures Displacement(instr, O_LI) == ExtendedLi(instr)
  {
    hide Field, SignExtended, And, Join, Quad, Clear, BdBits, LiBits;
    FieldBits(instr);
    BdSign(instr);
    LiSign(instr);
    Extended14(BdBits(instr));
    Extended24(LiBits(instr));
  }
}
