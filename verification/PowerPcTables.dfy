/** The operand and opcode tables of the PowerPC assembler and disassembler
    (u-boot/include/bedbug/ppc.h and tables.h), and what makes the opcode table searchable. */
module PowerPcTables {
  import opened BitVectors

  /** The `OH_` hints; every operand of the table carries at most one. */
  datatype Hint = Plain | Silent | Addr | Reg | Spr | Tbr | Offset | Literal

  /** `struct operand`; `id` is its place in `enum OP_FIELD`. */
  datatype Operand = Operand(id: nat, bits: Word, shift: Word, hint: Hint)

  const O_AA := Operand(1, 1, 1, Silent)
  const O_BD := Operand(2, 14, 2, Addr)
  const O_BI := Operand(3, 5, 16, Plain)
  const O_BO := Operand(4, 5, 21, Plain)
  const O_crbD := Operand(5, 5, 21, Plain)
  const O_crbA := Operand(6, 5, 16, Plain)
  const O_crbB := Operand(7, 5, 11, Plain)
  const O_CRM := Operand(8, 8, 12, Plain)
  const O_d := Operand(9, 15, 0, Offset)
  const O_LI := Operand(14, 24, 2, Addr)
  const O_LK := Operand(15, 1, 0, Silent)
  const O_MB := Operand(16, 5, 6, Plain)
  const O_ME := Operand(17, 5, 1, Plain)
  const O_NB := Operand(18, 5, 11, Plain)
  const O_OE := Operand(19, 1, 10, Silent)
  const O_rA := Operand(20, 5, 16, Reg)
  const O_rB := Operand(21, 5, 11, Reg)
  const O_Rc := Operand(22, 1, 0, Silent)
  const O_rD := Operand(23, 5, 21, Reg)
  const O_rS := Operand(24, 5, 21, Reg)
  const O_SH := Operand(25, 5, 11, Plain)
  const O_SIMM := Operand(26, 16, 0, Plain)
  const O_SR := Operand(27, 4, 16, Plain)
  const O_TO := Operand(28, 5, 21, Plain)
  const O_UIMM := Operand(29, 16, 0, Plain)
  const O_crfD := Operand(30, 3, 23, Plain)
  const O_crfS := Operand(31, 3, 18, Plain)
  const O_L := Operand(32, 1, 21, Plain)
  const O_spr := Operand(33, 10, 11, Spr)
  const O_tbr := Operand(34, 10, 11, Tbr)

  /** `x << n` for a count below the word size. */
  function Shl(x: Word, n: Word): Word { if n < 32 then x << n else 0 }

  function Shr(x: Word, n: Word): Word { if n < 32 then x >> n else 0 }

  /** As many ones as the operand has bits. */
  function Ones(o: Operand): Word { Shl(1, o.bits) - 1 }

  /** The bits of an instruction that an operand occupies. */
  function MaskOf(o: Operand): Word { Shl(Ones(o), o.shift) }

  // ---------------------------------------------------------------- opcode forms

  const B_MASK: Word := 0xfc00_0003
  const SC_MASK: Word := 0xfc00_0002
  const D_MASK: Word := 0xfc00_0000
  const X_MASK: Word := 0xfc00_07ff
  const M_MASK: Word := 0xfc00_0001

  function MakeOpcode(i: Word): Word { (i & 0x3f) << 26 }

  function OpcodeB(i: Word, aa: Word, lk: Word): (r: Word)
    ensures Within(r, B_MASK)
  {
    MakeOpcode(i) | ((aa & 1) << 1) | (lk & 1)
  }

  function OpcodeI(i: Word, aa: Word, lk: Word): (r: Word)
    ensures Within(r, B_MASK)
  {
    MakeOpcode(i) | ((aa & 1) << 1) | (lk & 1)
  }

  function OpcodeSc(i: Word): (r: Word)
    ensures Within(r, SC_MASK)
  {
    MakeOpcode(i) | 0x2
  }

  function OpcodeD(i: Word): (r: Word)
    ensures Within(r, D_MASK)
  {
    MakeOpcode(i)
  }

  function OpcodeX(i: Word, xo: Word, rc: Word): (r: Word)
    ensures Within(r, X_MASK)
  {
    MakeOpcode(i) | ((xo & 0x3ff) << 1) | (rc & 1)
  }

  function OpcodeXl(i: Word, xo: Word, lk: Word): (r: Word)
    ensures Within(r, X_MASK)
  {
    MakeOpcode(i) | ((xo & 0x3ff) << 1) | (lk & 1)
  }

  function OpcodeXfx(i: Word, xo: Word, rc: Word): (r: Word)
    ensures Within(r, X_MASK)
  {
    MakeOpcode(i) | ((xo & 0x3ff) << 1) | (rc & 1)
  }

  function OpcodeXo(i: Word, xo: Word, oe: Word, rc: Word): (r: Word)
    ensures Within(r, X_MASK)
  {
    MakeOpcode(i) | ((oe & 1) << 10) | ((xo & 0x1ff) << 1) | (rc & 1)
  }

  function OpcodeM(i: Word, rc: Word): (r: Word)
    ensures Within(r, M_MASK)
  {
    MakeOpcode(i) | (rc & 1)
  }

  // ---------------------------------------------------------------- bits of words, named

  function And(a: Word, b: Word): Word { a & b }

  function Join(a: Word, b: Word): Word { a | b }

  predicate Clear(a: Word, b: Word) { a & b == 0 }

  predicate Within(a: Word, b: Word) { a & !b == 0 }

  lemma JoinAssoc(a: Word, b: Word, c: Word)
    ensures Join(Join(a, b), c) == Join(a, Join(b, c)) && Join(a, 0) == a && Join(0, a) == a
  {
  }

  // ---------------------------------------------------------------- words as numbers

  /** The unsigned value of a word, added up from pieces of at most eight bits. */
  function Value(w: Word): int {
    0x400_0000 * Primary(w) + 0x20_0000 * Piece25(w) + 0x1_0000 * Piece20(w) + 0x100 * Piece15(w) + Piece7(w)
  }

  /** The primary opcode: the top six bits. */
  function Primary(w: Word): int { (w >> 26) as bv6 as int }

  function Piece25(w: Word): int { ((w >> 21) & 0x1f) as bv5 as int }

  function Piece20(w: Word): int { ((w >> 16) & 0x1f) as bv5 as int }

  function Piece15(w: Word): int { ((w >> 8) & 0xff) as bv8 as int }

  function Piece7(w: Word): int { (w & 0xff) as bv8 as int }

  lemma PieceBounds(w: Word)
    ensures 0 <= Primary(w) < 64 && 0 <= Piece25(w) < 32 && 0 <= Piece20(w) < 32
    ensures 0 <= Piece15(w) < 256 && 0 <= Piece7(w) < 256
  {
  }

  lemma ByteInjective(a: bv8, b: bv8)
    ensures a as int == b as int ==> a == b
  {
  }

  lemma FiveInjective(a: bv5, b: bv5)
    ensures a as int == b as int ==> a == b
  {
  }

  lemma SixInjective(a: bv6, b: bv6)
    ensures a as int == b as int ==> a == b
  {
  }

  lemma Reassemble(a: Word, b: Word)
    requires a >> 26 == b >> 26 && (a >> 21) & 0x1f == (b >> 21) & 0x1f && (a >> 16) & 0x1f == (b >> 16) & 0x1f
    requires (a >> 8) & 0xff == (b >> 8) & 0xff && a & 0xff == b & 0xff
    ensures a == b
  {
  }

  lemma SamePieces(a: Word, b: Word)
    requires Primary(a) == Primary(b) && Piece25(a) == Piece25(b) && Piece20(a) == Piece20(b)
    requires Piece15(a) == Piece15(b) && Piece7(a) == Piece7(b)
    ensures a == b
  {
    SixInjective((a >> 26) as bv6, (b >> 26) as bv6);
    FiveInjective(((a >> 21) & 0x1f) as bv5, ((b >> 21) & 0x1f) as bv5);
    FiveInjective(((a >> 16) & 0x1f) as bv5, ((b >> 16) & 0x1f) as bv5);
    ByteInjective(((a >> 8) & 0xff) as bv8, ((b >> 8) & 0xff) as bv8);
    ByteInjective((a & 0xff) as bv8, (b & 0xff) as bv8);
    Reassemble(a, b);
  }

  /** Words with the same value are the same word. */
  lemma ValueInjective(a: Word, b: Word)
    requires Value(a) == Value(b)
    ensures a == b
  {
    hide Primary, Piece25, Piece20, Piece15, Piece7;
    PieceBounds(a);
    PieceBounds(b);
    SamePieces(a, b);
  }

  /** The primary opcode leads the numeric order. */
  lemma PrimaryLeads(a: Word, b: Word)
    ensures Primary(a) < Primary(b) ==> Value(a) < Value(b)
    ensures Value(a) < Value(b) ==> Primary(a) <= Primary(b)
  {
    hide Primary, Piece25, Piece20, Piece15, Piece7;
    PieceBounds(a);
    PieceBounds(b);
  }

  lemma MaskKeepsPrimary(w: Word, mask: Word)
    requires Within(PRIMARY, mask)
    ensures Primary(And(w, mask)) == Primary(w)
  {
    assert (w & mask) >> 26 == w >> 26;
  }

  // ---------------------------------------------------------------- instruction layouts

  /** The fixed bits of an instruction, its operands in the order they are written, and all bits taken
      by either. */
  datatype Form = Form(mask: Word, fields: seq<Operand>, used: Word)

  function UsedBy(fields: seq<Operand>): Word {
    if fields == [] then 0
    else if fields[0].hint.Silent? then UsedBy(fields[1..])
    else Join(UsedBy(fields[1..]), MaskOf(fields[0]))
  }

  /** The places where the operands of the table start. */
  predicate KnownShift(s: Word) {
    s == 0 || s == 1 || s == 2 || s == 6 || s == 10 || s == 11 || s == 12 || s == 16 || s == 18 || s == 21 || s == 23
  }

  /** The operand starts at one of those places and does not reach beyond the top of the word. */
  predicate Known(o: Operand) { KnownShift(o.shift) && Shr(MaskOf(o), o.shift) == Ones(o) }

  /** Operand fields are pairwise disjoint and disjoint from the fixed bits; silent operands, which the
      assembler skips, lie within the fixed bits. */
  predicate Fit(fields: seq<Operand>, mask: Word) {
    fields == [] ||
    (Fit(fields[1..], mask) && Known(fields[0]) &&
     if fields[0].hint.Silent? then Within(MaskOf(fields[0]), mask)
     else Clear(MaskOf(fields[0]), Join(mask, UsedBy(fields[1..]))))
  }

  /** The primary opcode is part of every mask. */
  const PRIMARY: Word := 0xfc00_0000

  predicate Sound(f: Form) {
    Within(PRIMARY, f.mask) && f.used == Join(f.mask, UsedBy(f.fields)) && Fit(f.fields, f.mask)
  }

  type Layout = f: Form | Sound(f) witness Form(PRIMARY, [], PRIMARY)

  function Bare(mask: Word): Layout
    requires Within(PRIMARY, mask)
  {
    Form(mask, [], mask)
  }

  /** The operand, and then those of `rest`. */
  function Then(o: Operand, rest: Layout): (r: Layout)
    requires Known(o) && if o.hint.Silent? then Within(MaskOf(o), rest.mask) else Clear(MaskOf(o), rest.used)
    ensures r.mask == rest.mask && r.fields == [o] + rest.fields
  {
    var r := Form(rest.mask, [o] + rest.fields, if o.hint.Silent? then rest.used else Join(rest.used, MaskOf(o)));
    ThenIsSound(o, rest, r);
    r
  }

  lemma ThenIsSound(o: Operand, rest: Layout, r: Form)
    requires Known(o) && if o.hint.Silent? then Within(MaskOf(o), rest.mask) else Clear(MaskOf(o), rest.used)
    requires r == Form(rest.mask, [o] + rest.fields, if o.hint.Silent? then rest.used else Join(rest.used, MaskOf(o)))
    ensures Sound(r)
  {
    hide MaskOf, Known, Join, Clear, Within;
    assert r.fields[1..] == rest.fields;
    JoinAssoc(rest.mask, UsedBy(rest.fields), MaskOf(o));
  }

  const D := Bare(D_MASK)
  const D_SIMM := Then(O_SIMM, D)
  const D_rA_SIMM := Then(O_rA, D_SIMM)
  const D_TO_rA_SIMM := Then(O_TO, D_rA_SIMM)
  const D_rD_rA_SIMM := Then(O_rD, D_rA_SIMM)
  const D_UIMM := Then(O_UIMM, D)
  const D_rA_UIMM := Then(O_rA, D_UIMM)
  const D_L_rA_UIMM := Then(O_L, D_rA_UIMM)
  const D_crfD_L_rA_UIMM := Then(O_crfD, D_L_rA_UIMM)
  const D_L_rA_SIMM := Then(O_L, D_rA_SIMM)
  const D_crfD_L_rA_SIMM := Then(O_crfD, D_L_rA_SIMM)
  const B := Bare(B_MASK)
  const B_LK := Then(O_LK, B)
  const B_AA_LK := Then(O_AA, B_LK)
  const B_BD_AA_LK := Then(O_BD, B_AA_LK)
  const B_BI_BD_AA_LK := Then(O_BI, B_BD_AA_LK)
  const B_BO_BI_BD_AA_LK := Then(O_BO, B_BI_BD_AA_LK)
  const SC := Bare(SC_MASK)
  const B_LI_AA_LK := Then(O_LI, B_AA_LK)
  const X := Bare(X_MASK)
  const X_crfS := Then(O_crfS, X)
  const X_crfD_crfS := Then(O_crfD, X_crfS)
  const X_LK := Then(O_LK, X)
  const X_BI_LK := Then(O_BI, X_LK)
  const X_BO_BI_LK := Then(O_BO, X_BI_LK)
  const X_crbB := Then(O_crbB, X)
  const X_crbA_crbB := Then(O_crbA, X_crbB)
  const X_crbD_crbA_crbB := Then(O_crbD, X_crbA_crbB)
  const M := Bare(M_MASK)
  const M_Rc := Then(O_Rc, M)
  const M_ME_Rc := Then(O_ME, M_Rc)
  const M_MB_ME_Rc := Then(O_MB, M_ME_Rc)
  const M_SH_MB_ME_Rc := Then(O_SH, M_MB_ME_Rc)
  const M_rS_SH_MB_ME_Rc := Then(O_rS, M_SH_MB_ME_Rc)
  const M_rA_rS_SH_MB_ME_Rc := Then(O_rA, M_rS_SH_MB_ME_Rc)
  const M_rB_MB_ME_Rc := Then(O_rB, M_MB_ME_Rc)
  const M_rS_rB_MB_ME_Rc := Then(O_rS, M_rB_MB_ME_Rc)
  const M_rA_rS_rB_MB_ME_Rc := Then(O_rA, M_rS_rB_MB_ME_Rc)
  const D_rS_UIMM := Then(O_rS, D_UIMM)
  const D_rA_rS_UIMM := Then(O_rA, D_rS_UIMM)
  const X_rB := Then(O_rB, X)
  const X_rA_rB := Then(O_rA, X_rB)
  const X_L_rA_rB := Then(O_L, X_rA_rB)
  const X_crfD_L_rA_rB := Then(O_crfD, X_L_rA_rB)
  const X_TO_rA_rB := Then(O_TO, X_rA_rB)
  const X_Rc := Then(O_Rc, X)
  const X_OE_Rc := Then(O_OE, X_Rc)
  const X_rB_OE_Rc := Then(O_rB, X_OE_Rc)
  const X_rA_rB_OE_Rc := Then(O_rA, X_rB_OE_Rc)
  const X_rD_rA_rB_OE_Rc := Then(O_rD, X_rA_rB_OE_Rc)
  const X_rB_Rc := Then(O_rB, X_Rc)
  const X_rA_rB_Rc := Then(O_rA, X_rB_Rc)
  const X_rD_rA_rB_Rc := Then(O_rD, X_rA_rB_Rc)
  const X_rD := Then(O_rD, X)
  const X_rD_rA_rB := Then(O_rD, X_rA_rB)
  const X_rS_rB_Rc := Then(O_rS, X_rB_Rc)
  const X_rA_rS_rB_Rc := Then(O_rA, X_rS_rB_Rc)
  const X_rS_Rc := Then(O_rS, X_Rc)
  const X_rA_rS_Rc := Then(O_rA, X_rS_Rc)
  const X_rA_OE_Rc := Then(O_rA, X_OE_Rc)
  const X_rD_rA_OE_Rc := Then(O_rD, X_rA_OE_Rc)
  const X_rS := Then(O_rS, X)
  const X_CRM_rS := Then(O_CRM, X_rS)
  const X_rS_rA_rB := Then(O_rS, X_rA_rB)
  const X_SR_rS := Then(O_SR, X_rS)
  const X_rS_rB := Then(O_rS, X_rB)
  const X_spr := Then(O_spr, X)
  const X_rD_spr := Then(O_rD, X_spr)
  const X_tbr := Then(O_tbr, X)
  const X_rD_tbr := Then(O_rD, X_tbr)
  const X_spr_rS := Then(O_spr, X_rS)
  const X_crfD := Then(O_crfD, X)
  const X_SR := Then(O_SR, X)
  const X_rD_SR := Then(O_rD, X_SR)
  const X_NB := Then(O_NB, X)
  const X_rA_NB := Then(O_rA, X_NB)
  const X_rD_rA_NB := Then(O_rD, X_rA_NB)
  const X_rD_rB := Then(O_rD, X_rB)
  const X_rS_rA_NB := Then(O_rS, X_rA_NB)
  const X_SH_Rc := Then(O_SH, X_Rc)
  const X_rS_SH_Rc := Then(O_rS, X_SH_Rc)
  const X_rA_rS_SH_Rc := Then(O_rA, X_rS_SH_Rc)
  const D_rA := Then(O_rA, D)
  const D_d_rA := Then(O_d, D_rA)
  const D_rD_d_rA := Then(O_rD, D_d_rA)
  const D_rS_d_rA := Then(O_rS, D_d_rA)

  // ---------------------------------------------------------------- the opcode table

  /** `struct opcode`: `relative` is the H_RELATIVE hint; mnemonics appear as comments only. */
  datatype Entry = Entry(opcode: Word, form: Layout, relative: bool)

  type Row = e: Entry | Within(e.opcode, e.form.mask) witness Entry(0, Bare(PRIMARY), false)

  /** Rows are in numeric order, and rows with the same primary opcode have the same mask. */
  predicate Before(a: Row, b: Row) {
    Value(a.opcode) < Value(b.opcode) && (Primary(a.opcode) == Primary(b.opcode) ==> a.form.mask == b.form.mask)
  }

  predicate Sorted(t: seq<Row>) {
    forall i :: 0 <= i < |t| - 1 ==> Before(t[i], t[i + 1])
  }

  type Table = t: seq<Row> | Sorted(t)

  predicate Follows(a: Table, b: Table) {
    a != [] && b != [] && Before(a[|a| - 1], b[0])
  }

  lemma CatSorted(a: Table, b: Table)
    requires a == [] || b == [] || Follows(a, b)
    ensures Sorted(a + b)
  {
    hide Before;
    var t := a + b;
    forall i | 0 <= i < |t| - 1 ensures Before(t[i], t[i + 1]) {
      if i < |a| - 1 {
        assert t[i] == a[i] && t[i + 1] == a[i + 1];
      } else if i >= |a| {
        assert t[i] == b[i - |a|] && t[i + 1] == b[i - |a| + 1];
      }
    }
  }

  function Flatten(parts: seq<Table>): seq<Row> {
    if parts == [] then [] else parts[0] + Flatten(parts[1..])
  }

  lemma {:induction false} FlattenSorted(parts: seq<Table>)
    requires forall k :: 0 <= k < |parts| - 1 ==> Follows(parts[k], parts[k + 1])
    ensures Sorted(Flatten(parts))
  {
    hide Before;
    if |parts| > 0 {
      FlattenSorted(parts[1..]);
      if |parts| > 1 {
        assert Follows(parts[0], parts[1]);
        assert parts[1..][0] == parts[1];
        assert Flatten(parts[1..])[0] == parts[1][0];
      }
      CatSorted(parts[0], Flatten(parts[1..]));
    }
  }

  const OPCODES_0: Table := [
    Entry(OpcodeD(3), D_TO_rA_SIMM, false),  // twi
    Entry(OpcodeD(7), D_rD_rA_SIMM, false),  // mulli
    Entry(OpcodeD(8), D_rD_rA_SIMM, false),  // subfic
    Entry(OpcodeD(10), D_crfD_L_rA_UIMM, false)  // cmpli
  ]

  const OPCODES_4: Table := [
    Entry(OpcodeD(11), D_crfD_L_rA_SIMM, false),  // cmpi
    Entry(OpcodeD(12), D_rD_rA_SIMM, false),  // addic
    Entry(OpcodeD(13), D_rD_rA_SIMM, false),  // addic.
    Entry(OpcodeD(14), D_rD_rA_SIMM, false)  // addi
  ]

  const OPCODES_8: Table := [
    Entry(OpcodeD(15), D_rD_rA_SIMM, false),  // addis
    Entry(OpcodeB(16, 0, 0), B_BO_BI_BD_AA_LK, true),  // bc
    Entry(OpcodeB(16, 0, 1), B_BO_BI_BD_AA_LK, true),  // bcl
    Entry(OpcodeB(16, 1, 0), B_BO_BI_BD_AA_LK, false)  // bca
  ]

  const OPCODES_12: Table := [
    Entry(OpcodeB(16, 1, 1), B_BO_BI_BD_AA_LK, false),  // bcla
    Entry(OpcodeSc(17), SC, false),  // sc
    Entry(OpcodeI(18, 0, 0), B_LI_AA_LK, true),  // b
    Entry(OpcodeI(18, 0, 1), B_LI_AA_LK, true)  // bl
  ]

  const OPCODES_16: Table := [
    Entry(OpcodeI(18, 1, 0), B_LI_AA_LK, false),  // ba
    Entry(OpcodeI(18, 1, 1), B_LI_AA_LK, false),  // bla
    Entry(OpcodeXl(19, 0, 0), X_crfD_crfS, false),  // mcrf
    Entry(OpcodeXl(19, 16, 0), X_BO_BI_LK, false)  // bclr
  ]

  const OPCODES_20: Table := [
    Entry(OpcodeXl(19, 16, 1), X_BO_BI_LK, false),  // bclrl
    Entry(OpcodeXl(19, 33, 0), X_crbD_crbA_crbB, false),  // crnor
    Entry(OpcodeXl(19, 50, 0), X, false),  // rfi
    Entry(OpcodeXl(19, 129, 0), X_crbD_crbA_crbB, false)  // crandc
  ]

  const OPCODES_24: Table := [
    Entry(OpcodeXl(19, 150, 0), X, false),  // isync
    Entry(OpcodeXl(19, 193, 0), X_crbD_crbA_crbB, false),  // crxor
    Entry(OpcodeXl(19, 225, 0), X_crbD_crbA_crbB, false),  // crnand
    Entry(OpcodeXl(19, 257, 0), X_crbD_crbA_crbB, false)  // crand
  ]

  const OPCODES_28: Table := [
    Entry(OpcodeXl(19, 289, 0), X_crbD_crbA_crbB, false),  // creqv
    Entry(OpcodeXl(19, 417, 0), X_crbD_crbA_crbB, false),  // crorc
    Entry(OpcodeXl(19, 449, 0), X_crbD_crbA_crbB, false),  // cror
    Entry(OpcodeXl(19, 528, 0), X_BO_BI_LK, false)  // bcctr
  ]

  const OPCODES_32: Table := [
    Entry(OpcodeXl(19, 528, 1), X_BO_BI_LK, false),  // bcctrl
    Entry(OpcodeM(20, 0), M_rA_rS_SH_MB_ME_Rc, false),  // rlwimi
    Entry(OpcodeM(20, 1), M_rA_rS_SH_MB_ME_Rc, false),  // rlwimi.
    Entry(OpcodeM(21, 0), M_rA_rS_SH_MB_ME_Rc, false)  // rlwinm
  ]

  const OPCODES_36: Table := [
    Entry(OpcodeM(21, 1), M_rA_rS_SH_MB_ME_Rc, false),  // rlwinm.
    Entry(OpcodeM(23, 0), M_rA_rS_rB_MB_ME_Rc, false),  // rlwnm
    Entry(OpcodeM(23, 1), M_rA_rS_rB_MB_ME_Rc, false),  // rlwnm.
    Entry(OpcodeD(24), D_rA_rS_UIMM, false)  // ori
  ]

  const OPCODES_40: Table := [
    Entry(OpcodeD(25), D_rA_rS_UIMM, false),  // oris
    Entry(OpcodeD(26), D_rA_rS_UIMM, false),  // xori
    Entry(OpcodeD(27), D_rA_rS_UIMM, false),  // xoris
    Entry(OpcodeD(28), D_rA_rS_UIMM, false)  // andi.
  ]

  const OPCODES_44: Table := [
    Entry(OpcodeD(29), D_rA_rS_UIMM, false),  // andis.
    Entry(OpcodeX(31, 0, 0), X_crfD_L_rA_rB, false),  // cmp
    Entry(OpcodeX(31, 4, 0), X_TO_rA_rB, false),  // tw
    Entry(OpcodeXo(31, 8, 0, 0), X_rD_rA_rB_OE_Rc, false)  // subfc
  ]

  const OPCODES_48: Table := [
    Entry(OpcodeXo(31, 8, 0, 1), X_rD_rA_rB_OE_Rc, false),  // subfc.
    Entry(OpcodeXo(31, 10, 0, 0), X_rD_rA_rB_OE_Rc, false),  // addc
    Entry(OpcodeXo(31, 10, 0, 1), X_rD_rA_rB_OE_Rc, false),  // addc.
    Entry(OpcodeXo(31, 11, 0, 0), X_rD_rA_rB_Rc, false)  // mulhwu
  ]

  const OPCODES_52: Table := [
    Entry(OpcodeXo(31, 11, 0, 1), X_rD_rA_rB_Rc, false),  // mulhwu.
    Entry(OpcodeX(31, 19, 0), X_rD, false),  // mfcr
    Entry(OpcodeX(31, 20, 0), X_rD_rA_rB, false),  // lwarx
    Entry(OpcodeX(31, 23, 0), X_rD_rA_rB, false)  // lwzx
  ]

  const OPCODES_56: Table := [
    Entry(OpcodeX(31, 24, 0), X_rA_rS_rB_Rc, false),  // slw
    Entry(OpcodeX(31, 24, 1), X_rA_rS_rB_Rc, false),  // slw.
    Entry(OpcodeX(31, 26, 0), X_rA_rS_Rc, false),  // cntlzw
    Entry(OpcodeX(31, 26, 1), X_rA_rS_Rc, false)  // cntlzw.
  ]

  const OPCODES_60: Table := [
    Entry(OpcodeX(31, 28, 0), X_rA_rS_rB_Rc, false),  // and
    Entry(OpcodeX(31, 28, 1), X_rA_rS_rB_Rc, false),  // and.
    Entry(OpcodeX(31, 32, 0), X_crfD_L_rA_rB, false),  // cmpl
    Entry(OpcodeXo(31, 40, 0, 0), X_rD_rA_rB_OE_Rc, false)  // subf
  ]

  const OPCODES_64: Table := [
    Entry(OpcodeXo(31, 40, 0, 1), X_rD_rA_rB_OE_Rc, false),  // subf.
    Entry(OpcodeX(31, 54, 0), X_rA_rB, false),  // dcbst
    Entry(OpcodeX(31, 55, 0), X_rD_rA_rB, false),  // lwzux
    Entry(OpcodeX(31, 60, 0), X_rA_rS_rB_Rc, false)  // andc
  ]

  const OPCODES_68: Table := [
    Entry(OpcodeX(31, 60, 1), X_rA_rS_rB_Rc, false),  // andc.
    Entry(OpcodeXo(31, 75, 0, 0), X_rD_rA_rB_Rc, false),  // mulhw
    Entry(OpcodeXo(31, 75, 0, 1), X_rD_rA_rB_Rc, false),  // mulhw.
    Entry(OpcodeX(31, 83, 0), X_rD, false)  // mfmsr
  ]

  const OPCODES_72: Table := [
    Entry(OpcodeX(31, 86, 0), X_rA_rB, false),  // dcbf
    Entry(OpcodeX(31, 87, 0), X_rD_rA_rB, false),  // lbzx
    Entry(OpcodeXo(31, 104, 0, 0), X_rD_rA_OE_Rc, false),  // neg
    Entry(OpcodeXo(31, 104, 0, 1), X_rD_rA_OE_Rc, false)  // neg.
  ]

  const OPCODES_76: Table := [
    Entry(OpcodeX(31, 119, 0), X_rD_rA_rB, false),  // lbzux
    Entry(OpcodeX(31, 124, 0), X_rA_rS_rB_Rc, false),  // nor
    Entry(OpcodeX(31, 124, 1), X_rA_rS_rB_Rc, false),  // nor.
    Entry(OpcodeXo(31, 136, 0, 0), X_rD_rA_rB_OE_Rc, false)  // subfe
  ]

  const OPCODES_80: Table := [
    Entry(OpcodeXo(31, 136, 0, 1), X_rD_rA_rB_OE_Rc, false),  // subfe.
    Entry(OpcodeXo(31, 138, 0, 0), X_rD_rA_rB_OE_Rc, false),  // adde
    Entry(OpcodeXo(31, 138, 0, 1), X_rD_rA_rB_OE_Rc, false),  // adde.
    Entry(OpcodeXfx(31, 144, 0), X_CRM_rS, false)  // mtcrf
  ]

  const OPCODES_84: Table := [
    Entry(OpcodeX(31, 146, 0), X_rS, false),  // mtmsr
    Entry(OpcodeX(31, 150, 1), X_rS_rA_rB, false),  // stwcx.
    Entry(OpcodeX(31, 151, 0), X_rS_rA_rB, false),  // stwx
    Entry(OpcodeX(31, 183, 0), X_rS_rA_rB, false)  // stwux
  ]

  const OPCODES_88: Table := [
    Entry(OpcodeXo(31, 200, 0, 0), X_rD_rA_OE_Rc, false),  // subfze
    Entry(OpcodeXo(31, 200, 0, 1), X_rD_rA_OE_Rc, false),  // subfze.
    Entry(OpcodeXo(31, 202, 0, 0), X_rD_rA_OE_Rc, false),  // addze
    Entry(OpcodeXo(31, 202, 0, 1), X_rD_rA_OE_Rc, false)  // addze.
  ]

  const OPCODES_92: Table := [
    Entry(OpcodeX(31, 210, 0), X_SR_rS, false),  // mtsr
    Entry(OpcodeX(31, 215, 0), X_rS_rA_rB, false),  // stbx
    Entry(OpcodeXo(31, 232, 0, 0), X_rD_rA_OE_Rc, false),  // subfme
    Entry(OpcodeXo(31, 232, 0, 1), X_rD_rA_OE_Rc, false)  // subfme.
  ]

  const OPCODES_96: Table := [
    Entry(OpcodeXo(31, 234, 0, 0), X_rD_rA_OE_Rc, false),  // addme
    Entry(OpcodeXo(31, 234, 0, 1), X_rD_rA_OE_Rc, false),  // addme.
    Entry(OpcodeXo(31, 235, 0, 0), X_rD_rA_rB_OE_Rc, false),  // mullw
    Entry(OpcodeXo(31, 235, 0, 1), X_rD_rA_rB_OE_Rc, false)  // mullw.
  ]

  const OPCODES_100: Table := [
    Entry(OpcodeX(31, 242, 0), X_rS_rB, false),  // mtsrin
    Entry(OpcodeX(31, 246, 0), X_rA_rB, false),  // dcbtst
    Entry(OpcodeX(31, 247, 0), X_rS_rA_rB, false),  // stbux
    Entry(OpcodeXo(31, 266, 0, 0), X_rD_rA_rB_OE_Rc, false)  // add
  ]

  const OPCODES_104: Table := [
    Entry(OpcodeXo(31, 266, 0, 1), X_rD_rA_rB_OE_Rc, false),  // add.
    Entry(OpcodeX(31, 278, 0), X_rA_rB, false),  // dcbt
    Entry(OpcodeX(31, 279, 0), X_rD_rA_rB, false),  // lhzx
    Entry(OpcodeX(31, 284, 0), X_rA_rS_rB_Rc, false)  // eqv
  ]

  const OPCODES_108: Table := [
    Entry(OpcodeX(31, 284, 1), X_rA_rS_rB_Rc, false),  // eqv.
    Entry(OpcodeX(31, 306, 0), X_rB, false),  // tlbie
    Entry(OpcodeX(31, 310, 0), X_rD_rA_rB, false),  // eciwx
    Entry(OpcodeX(31, 311, 0), X_rD_rA_rB, false)  // lhzux
  ]

  const OPCODES_112: Table := [
    Entry(OpcodeX(31, 316, 0), X_rA_rS_rB_Rc, false),  // xor
    Entry(OpcodeX(31, 316, 1), X_rA_rS_rB_Rc, false),  // xor.
    Entry(OpcodeXfx(31, 339, 0), X_rD_spr, false),  // mfspr
    Entry(OpcodeX(31, 343, 0), X_rD_rA_rB, false)  // lhax
  ]

  const OPCODES_116: Table := [
    Entry(OpcodeX(31, 370, 0), X, false),  // tlbia
    Entry(OpcodeXfx(31, 371, 0), X_rD_tbr, false),  // mftb
    Entry(OpcodeX(31, 375, 0), X_rD_rA_rB, false),  // lhaux
    Entry(OpcodeX(31, 407, 0), X_rS_rA_rB, false)  // sthx
  ]

  const OPCODES_120: Table := [
    Entry(OpcodeX(31, 412, 0), X_rA_rS_rB_Rc, false),  // orc
    Entry(OpcodeX(31, 412, 1), X_rA_rS_rB_Rc, false),  // orc.
    Entry(OpcodeX(31, 438, 0), X_rS_rA_rB, false),  // ecowx
    Entry(OpcodeX(31, 439, 0), X_rS_rA_rB, false)  // sthux
  ]

  const OPCODES_124: Table := [
    Entry(OpcodeX(31, 444, 0), X_rA_rS_rB_Rc, false),  // or
    Entry(OpcodeX(31, 444, 1), X_rA_rS_rB_Rc, false),  // or.
    Entry(OpcodeXo(31, 459, 0, 0), X_rD_rA_rB_OE_Rc, false),  // divwu
    Entry(OpcodeXo(31, 459, 0, 1), X_rD_rA_rB_OE_Rc, false)  // divwu.
  ]

  const OPCODES_128: Table := [
    Entry(OpcodeXfx(31, 467, 0), X_spr_rS, false),  // mtspr
    Entry(OpcodeX(31, 470, 0), X_rA_rB, false),  // dcbi
    Entry(OpcodeX(31, 476, 0), X_rA_rS_rB_Rc, false),  // nand
    Entry(OpcodeX(31, 476, 1), X_rA_rS_rB_Rc, false)  // nand.
  ]

  const OPCODES_132: Table := [
    Entry(OpcodeXo(31, 491, 0, 0), X_rD_rA_rB_OE_Rc, false),  // divw
    Entry(OpcodeXo(31, 491, 0, 1), X_rD_rA_rB_OE_Rc, false),  // divw.
    Entry(OpcodeX(31, 512, 0), X_crfD, false),  // mcrxr
    Entry(OpcodeXo(31, 8, 1, 0), X_rD_rA_rB_OE_Rc, false)  // subfco
  ]

  const OPCODES_136: Table := [
    Entry(OpcodeXo(31, 8, 1, 1), X_rD_rA_rB_OE_Rc, false),  // subfco.
    Entry(OpcodeXo(31, 10, 1, 0), X_rD_rA_rB_OE_Rc, false),  // addco
    Entry(OpcodeXo(31, 10, 1, 1), X_rD_rA_rB_OE_Rc, false),  // addco.
    Entry(OpcodeX(31, 533, 0), X_rD_rA_rB, false)  // lswx
  ]

  const OPCODES_140: Table := [
    Entry(OpcodeX(31, 534, 0), X_rD_rA_rB, false),  // lwbrx
    Entry(OpcodeX(31, 536, 0), X_rA_rS_rB_Rc, false),  // srw
    Entry(OpcodeX(31, 536, 1), X_rA_rS_rB_Rc, false),  // srw.
    Entry(OpcodeXo(31, 40, 1, 0), X_rD_rA_rB_OE_Rc, false)  // subfo
  ]

  const OPCODES_144: Table := [
    Entry(OpcodeXo(31, 40, 1, 1), X_rD_rA_rB_OE_Rc, false),  // subfo.
    Entry(OpcodeX(31, 566, 0), X, false),  // tlbsync
    Entry(OpcodeX(31, 595, 0), X_rD_SR, false),  // mfsr
    Entry(OpcodeX(31, 597, 0), X_rD_rA_NB, false)  // lswi
  ]

  const OPCODES_148: Table := [
    Entry(OpcodeX(31, 598, 0), X, false),  // sync
    Entry(OpcodeXo(31, 104, 1, 0), X_rD_rA_OE_Rc, false),  // nego
    Entry(OpcodeXo(31, 104, 1, 1), X_rD_rA_OE_Rc, false),  // nego.
    Entry(OpcodeXo(31, 136, 1, 0), X_rD_rA_rB_OE_Rc, false)  // subfeo
  ]

  const OPCODES_152: Table := [
    Entry(OpcodeXo(31, 136, 1, 1), X_rD_rA_rB_OE_Rc, false),  // subfeo.
    Entry(OpcodeXo(31, 138, 1, 0), X_rD_rA_rB_OE_Rc, false),  // addeo
    Entry(OpcodeXo(31, 138, 1, 1), X_rD_rA_rB_OE_Rc, false),  // addeo.
    Entry(OpcodeX(31, 659, 0), X_rD_rB, false)  // mfsrin
  ]

  const OPCODES_156: Table := [
    Entry(OpcodeX(31, 661, 0), X_rS_rA_rB, false),  // stswx
    Entry(OpcodeX(31, 662, 0), X_rS_rA_rB, false),  // stwbrx
    Entry(OpcodeXo(31, 200, 1, 0), X_rD_rA_OE_Rc, false),  // subfzeo
    Entry(OpcodeXo(31, 200, 1, 1), X_rD_rA_OE_Rc, false)  // subfzeo.
  ]

  const OPCODES_160: Table := [
    Entry(OpcodeXo(31, 202, 1, 0), X_rD_rA_OE_Rc, false),  // addzeo
    Entry(OpcodeXo(31, 202, 1, 1), X_rD_rA_OE_Rc, false),  // addzeo.
    Entry(OpcodeX(31, 725, 0), X_rS_rA_NB, false),  // stswi
    Entry(OpcodeXo(31, 232, 1, 0), X_rD_rA_OE_Rc, false)  // subfmeo
  ]

  const OPCODES_164: Table := [
    Entry(OpcodeXo(31, 232, 1, 1), X_rD_rA_OE_Rc, false),  // subfmeo.
    Entry(OpcodeXo(31, 234, 1, 0), X_rD_rA_OE_Rc, false),  // addmeo
    Entry(OpcodeXo(31, 234, 1, 1), X_rD_rA_OE_Rc, false),  // addmeo.
    Entry(OpcodeXo(31, 235, 1, 0), X_rD_rA_rB_OE_Rc, false)  // mullwo
  ]

  const OPCODES_168: Table := [
    Entry(OpcodeXo(31, 235, 1, 1), X_rD_rA_rB_OE_Rc, false),  // mullwo.
    Entry(OpcodeXo(31, 266, 1, 0), X_rD_rA_rB_OE_Rc, false),  // addo
    Entry(OpcodeXo(31, 266, 1, 1), X_rD_rA_rB_OE_Rc, false),  // addo.
    Entry(OpcodeX(31, 790, 0), X_rD_rA_rB, false)  // lhbrx
  ]

  const OPCODES_172: Table := [
    Entry(OpcodeX(31, 792, 0), X_rA_rS_rB_Rc, false),  // sraw
    Entry(OpcodeX(31, 792, 1), X_rA_rS_rB_Rc, false),  // sraw.
    Entry(OpcodeX(31, 824, 0), X_rA_rS_SH_Rc, false),  // srawi
    Entry(OpcodeX(31, 824, 1), X_rA_rS_SH_Rc, false)  // srawi.
  ]

  const OPCODES_176: Table := [
    Entry(OpcodeX(31, 854, 0), X, false),  // eieio
    Entry(OpcodeX(31, 918, 0), X_rS_rA_rB, false),  // sthbrx
    Entry(OpcodeX(31, 922, 0), X_rA_rS_Rc, false),  // extsh
    Entry(OpcodeX(31, 922, 1), X_rA_rS_Rc, false)  // extsh.
  ]

  const OPCODES_180: Table := [
    Entry(OpcodeX(31, 954, 0), X_rA_rS_Rc, false),  // extsb
    Entry(OpcodeX(31, 954, 1), X_rA_rS_Rc, false),  // extsb.
    Entry(OpcodeXo(31, 459, 1, 0), X_rD_rA_rB_OE_Rc, false),  // divwuo
    Entry(OpcodeXo(31, 459, 1, 1), X_rD_rA_rB_OE_Rc, false)  // divwuo.
  ]

  const OPCODES_184: Table := [
    Entry(OpcodeX(31, 978, 0), X_rB, false),  // tlbld
    Entry(OpcodeX(31, 982, 0), X_rA_rB, false),  // icbi
    Entry(OpcodeXo(31, 491, 1, 0), X_rD_rA_rB_OE_Rc, false),  // divwo
    Entry(OpcodeXo(31, 491, 1, 1), X_rD_rA_rB_OE_Rc, false)  // divwo.
  ]

  const OPCODES_188: Table := [
    Entry(OpcodeX(31, 1010, 0), X_rB, false),  // tlbli
    Entry(OpcodeX(31, 1014, 0), X_rA_rB, false),  // dcbz
    Entry(OpcodeD(32), D_rD_d_rA, false),  // lwz
    Entry(OpcodeD(33), D_rD_d_rA, false)  // lwzu
  ]

  const OPCODES_192: Table := [
    Entry(OpcodeD(34), D_rD_d_rA, false),  // lbz
    Entry(OpcodeD(35), D_rD_d_rA, false),  // lbzu
    Entry(OpcodeD(36), D_rS_d_rA, false),  // stw
    Entry(OpcodeD(37), D_rS_d_rA, false)  // stwu
  ]

  const OPCODES_196: Table := [
    Entry(OpcodeD(38), D_rS_d_rA, false),  // stb
    Entry(OpcodeD(39), D_rS_d_rA, false),  // stbu
    Entry(OpcodeD(40), D_rD_d_rA, false),  // lhz
    Entry(OpcodeD(41), D_rD_d_rA, false)  // lhzu
  ]

  const OPCODES_200: Table := [
    Entry(OpcodeD(42), D_rD_d_rA, false),  // lha
    Entry(OpcodeD(43), D_rD_d_rA, false),  // lhau
    Entry(OpcodeD(44), D_rS_d_rA, false),  // sth
    Entry(OpcodeD(45), D_rS_d_rA, false)  // sthu
  ]

  const OPCODES_204: Table := [
    Entry(OpcodeD(46), D_rD_d_rA, false),  // lmw
    Entry(OpcodeD(47), D_rS_d_rA, false)  // stmw
  ]

  // The whole table, in four groups of thirteen stretches.

  const PARTS_0: seq<Table> := [
    OPCODES_0, OPCODES_4, OPCODES_8, OPCODES_12, OPCODES_16, OPCODES_20, OPCODES_24, OPCODES_28, OPCODES_32,
    OPCODES_36, OPCODES_40, OPCODES_44, OPCODES_48]

  const PARTS_52: seq<Table> := [
    OPCODES_52, OPCODES_56, OPCODES_60, OPCODES_64, OPCODES_68, OPCODES_72, OPCODES_76, OPCODES_80, OPCODES_84,
    OPCODES_88, OPCODES_92, OPCODES_96, OPCODES_100]

  const PARTS_104: seq<Table> := [
    OPCODES_104, OPCODES_108, OPCODES_112, OPCODES_116, OPCODES_120, OPCODES_124, OPCODES_128, OPCODES_132,
    OPCODES_136, OPCODES_140, OPCODES_144, OPCODES_148, OPCODES_152]

  const PARTS_156: seq<Table> := [
    OPCODES_156, OPCODES_160, OPCODES_164, OPCODES_168, OPCODES_172, OPCODES_176, OPCODES_180, OPCODES_184,
    OPCODES_188, OPCODES_192, OPCODES_196, OPCODES_200, OPCODES_204]

  const PARTS: seq<Table> := PARTS_0 + (PARTS_52 + (PARTS_104 + PARTS_156))

  /** From a first table to a last one, each in order after the one before. */
  predicate Linked(parts: seq<Table>, first: Table, last: Table) {
    && parts != [] && parts[0] == first && parts[|parts| - 1] == last
    && forall k :: 0 <= k < |parts| - 1 ==> Follows(parts[k], parts[k + 1])
  }

  lemma LinkedCat(a: seq<Table>, b: seq<Table>, w: Table, x: Table, y: Table, z: Table)
    requires Linked(a, w, x) && Linked(b, y, z) && Follows(x, y)
    ensures Linked(a + b, w, z)
  {
    hide Follows;
  }

  lemma Boundaries0()
    ensures Follows(OPCODES_0, OPCODES_4)
    ensures Follows(OPCODES_4, OPCODES_8)
    ensures Follows(OPCODES_8, OPCODES_12)
    ensures Follows(OPCODES_12, OPCODES_16)
  {
    hide Sound, Fit, UsedBy, Join, Clear, Within, MaskOf, Shl, Ones;
  }

  lemma Boundaries16()
    ensures Follows(OPCODES_16, OPCODES_20)
    ensures Follows(OPCODES_20, OPCODES_24)
    ensures Follows(OPCODES_24, OPCODES_28)
    ensures Follows(OPCODES_28, OPCODES_32)
  {
    hide Sound, Fit, UsedBy, Join, Clear, Within, MaskOf, Shl, Ones;
  }

  lemma Boundaries32()
    ensures Follows(OPCODES_32, OPCODES_36)
    ensures Follows(OPCODES_36, OPCODES_40)
    ensures Follows(OPCODES_40, OPCODES_44)
    ensures Follows(OPCODES_44, OPCODES_48)
    ensures Follows(OPCODES_48, OPCODES_52)
  {
    hide Sound, Fit, UsedBy, Join, Clear, Within, MaskOf, Shl, Ones;
  }

  lemma Linked0()
    ensures Linked(PARTS_0, OPCODES_0, OPCODES_48)
  {
    hide Follows, Value, Primary, Sound, Fit, UsedBy, Join, Clear, Within, MaskOf, Shl, Ones,
         OPCODES_0, OPCODES_4, OPCODES_8, OPCODES_12, OPCODES_16, OPCODES_20, OPCODES_24, OPCODES_28, OPCODES_32,
         OPCODES_36, OPCODES_40, OPCODES_44, OPCODES_48;
    Boundaries0();
    Boundaries16();
    Boundaries32();
  }

  lemma Boundaries52()
    ensures Follows(OPCODES_52, OPCODES_56)
    ensures Follows(OPCODES_56, OPCODES_60)
    ensures Follows(OPCODES_60, OPCODES_64)
    ensures Follows(OPCODES_64, OPCODES_68)
  {
    hide Sound, Fit, UsedBy, Join, Clear, Within, MaskOf, Shl, Ones;
  }

  lemma Boundaries68()
    ensures Follows(OPCODES_68, OPCODES_72)
    ensures Follows(OPCODES_72, OPCODES_76)
    ensures Follows(OPCODES_76, OPCODES_80)
    ensures Follows(OPCODES_80, OPCODES_84)
  {
    hide Sound, Fit, UsedBy, Join, Clear, Within, MaskOf, Shl, Ones;
  }

  lemma Boundaries84()
    ensures Follows(OPCODES_84, OPCODES_88)
    ensures Follows(OPCODES_88, OPCODES_92)
    ensures Follows(OPCODES_92, OPCODES_96)
    ensures Follows(OPCODES_96, OPCODES_100)
    ensures Follows(OPCODES_100, OPCODES_104)
  {
    hide Sound, Fit, UsedBy, Join, Clear, Within, MaskOf, Shl, Ones;
  }

  lemma Linked52()
    ensures Linked(PARTS_52, OPCODES_52, OPCODES_100)
  {
    hide Follows, Value, Primary, Sound, Fit, UsedBy, Join, Clear, Within, MaskOf, Shl, Ones,
         OPCODES_52, OPCODES_56, OPCODES_60, OPCODES_64, OPCODES_68, OPCODES_72, OPCODES_76, OPCODES_80, OPCODES_84,
         OPCODES_88, OPCODES_92, OPCODES_96, OPCODES_100;
    Boundaries52();
    Boundaries68();
    Boundaries84();
  }

  lemma Boundaries104()
    ensures Follows(OPCODES_104, OPCODES_108)
    ensures Follows(OPCODES_108, OPCODES_112)
    ensures Follows(OPCODES_112, OPCODES_116)
    ensures Follows(OPCODES_116, OPCODES_120)
  {
    hide Sound, Fit, UsedBy, Join, Clear, Within, MaskOf, Shl, Ones;
  }

  lemma Boundaries120()
    ensures Follows(OPCODES_120, OPCODES_124)
    ensures Follows(OPCODES_124, OPCODES_128)
    ensures Follows(OPCODES_128, OPCODES_132)
    ensures Follows(OPCODES_132, OPCODES_136)
  {
    hide Sound, Fit, UsedBy, Join, Clear, Within, MaskOf, Shl, Ones;
  }

  lemma Boundaries136()
    ensures Follows(OPCODES_136, OPCODES_140)
    ensures Follows(OPCODES_140, OPCODES_144)
    ensures Follows(OPCODES_144, OPCODES_148)
    ensures Follows(OPCODES_148, OPCODES_152)
    ensures Follows(OPCODES_152, OPCODES_156)
  {
    hide Sound, Fit, UsedBy, Join, Clear, Within, MaskOf, Shl, Ones;
  }

  lemma Linked104()
    ensures Linked(PARTS_104, OPCODES_104, OPCODES_152)
  {
    hide Follows, Value, Primary, Sound, Fit, UsedBy, Join, Clear, Within, MaskOf, Shl, Ones,
         OPCODES_104, OPCODES_108, OPCODES_112, OPCODES_116, OPCODES_120, OPCODES_124, OPCODES_128, OPCODES_132,
         OPCODES_136, OPCODES_140, OPCODES_144, OPCODES_148, OPCODES_152;
    Boundaries104();
    Boundaries120();
    Boundaries136();
  }

  lemma Boundaries156()
    ensures Follows(OPCODES_156, OPCODES_160)
    ensures Follows(OPCODES_160, OPCODES_164)
    ensures Follows(OPCODES_164, OPCODES_168)
    ensures Follows(OPCODES_168, OPCODES_172)
  {
    hide Sound, Fit, UsedBy, Join, Clear, Within, MaskOf, Shl, Ones;
  }

  lemma Boundaries172()
    ensures Follows(OPCODES_172, OPCODES_176)
    ensures Follows(OPCODES_176, OPCODES_180)
    ensures Follows(OPCODES_180, OPCODES_184)
    ensures Follows(OPCODES_184, OPCODES_188)
  {
    hide Sound, Fit, UsedBy, Join, Clear, Within, MaskOf, Shl, Ones;
  }

  lemma Boundaries188()
    ensures Follows(OPCODES_188, OPCODES_192)
    ensures Follows(OPCODES_192, OPCODES_196)
    ensures Follows(OPCODES_196, OPCODES_200)
    ensures Follows(OPCODES_200, OPCODES_204)
  {
    hide Sound, Fit, UsedBy, Join, Clear, Within, MaskOf, Shl, Ones;
  }

  lemma Linked156()
    ensures Linked(PARTS_156, OPCODES_156, OPCODES_204)
  {
    hide Follows, Value, Primary, Sound, Fit, UsedBy, Join, Clear, Within, MaskOf, Shl, Ones,
         OPCODES_156, OPCODES_160, OPCODES_164, OPCODES_168, OPCODES_172, OPCODES_176, OPCODES_180, OPCODES_184,
         OPCODES_188, OPCODES_192, OPCODES_196, OPCODES_200, OPCODES_204;
    Boundaries156();
    Boundaries172();
    Boundaries188();
  }

  /** `opcodes`. */
  const OPCODES: seq<Row> := Flatten(PARTS)

  lemma AllLinked()
    ensures Linked(PARTS, OPCODES_0, OPCODES_204)
  {
    hide Follows, Linked, Before, Sorted, Within, PARTS_0, PARTS_52, PARTS_104, PARTS_156,
         OPCODES_0, OPCODES_48, OPCODES_52, OPCODES_100, OPCODES_104, OPCODES_152, OPCODES_156, OPCODES_204;
    Linked0();
    Linked52();
    Linked104();
    Linked156();
    Boundaries32();
    Boundaries84();
    Boundaries136();
    var a, b, c, d := PARTS_0, PARTS_52, PARTS_104, PARTS_156;
    LinkedCat(c, d, OPCODES_104, OPCODES_152, OPCODES_156, OPCODES_204);
    LinkedCat(b, c + d, OPCODES_52, OPCODES_100, OPCODES_104, OPCODES_204);
    LinkedCat(a, b + (c + d), OPCODES_0, OPCODES_48, OPCODES_52, OPCODES_204);
  }

  /** The opcode table is in numeric order, and rows with the same primary opcode share their mask. */
  lemma TableSorted()
    ensures Sorted(OPCODES)
  {
    hide Follows, Flatten, Linked, Sorted, Within, PARTS, OPCODES_0, OPCODES_204;
    AllLinked();
    LinkedSorted(PARTS, OPCODES_0, OPCODES_204);
  }

  lemma LinkedSorted(parts: seq<Table>, first: Table, last: Table)
    requires Linked(parts, first, last)
    ensures Sorted(Flatten(parts))
  {
    hide Follows, Flatten, Sorted;
    FlattenSorted(parts);
  }
}
