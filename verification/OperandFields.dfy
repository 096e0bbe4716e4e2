/** Packing operands into instruction words and taking them out again, as the assembler and the
    disassembler of u-boot/common/bedbug.c do. */
module OperandFields {
  import opened BitVectors
  import opened PowerPcTables

  /** What `get_operand_value` and `print_operands` take out of an instruction. */
  function Field(w: Word, o: Operand): Word { And(Shr(w, o.shift), Ones(o)) }

  /** What `parse_operand` returns for the operand value `data`. */
  function Place(data: Word, o: Operand): Word { Shl(And(data, Ones(o)), o.shift) }

  // ---------------------------------------------------------------- one operand

  lemma ShiftBack(d: Word, m: Word, s: Word)
    requires KnownShift(s) && Shr(Shl(m, s), s) == m
    ensures And(Shr(Shl(And(d, m), s), s), m) == And(d, m)
  {
    if s == 0 {} else if s == 1 {} else if s == 2 {} else if s == 6 {} else if s == 10 {} else if s == 11 {}
    else if s == 12 {} else if s == 16 {} else if s == 18 {} else if s == 21 {} else {}
  }

  lemma ShiftPast(other: Word, w: Word, m: Word, s: Word)
    requires KnownShift(s) && Shr(Shl(m, s), s) == m && Clear(Shl(m, s), other)
    ensures And(Shr(Join(other, w), s), m) == And(Shr(w, s), m)
  {
    if s == 0 {} else if s == 1 {} else if s == 2 {} else if s == 6 {} else if s == 10 {} else if s == 11 {}
    else if s == 12 {} else if s == 16 {} else if s == 18 {} else if s == 21 {} else {}
  }

  lemma ShiftWithin(d: Word, m: Word, s: Word)
    requires KnownShift(s)
    ensures Within(Shl(And(d, m), s), Shl(m, s))
  {
    if s == 0 {} else if s == 1 {} else if s == 2 {} else if s == 6 {} else if s == 10 {} else if s == 11 {}
    else if s == 12 {} else if s == 16 {} else if s == 18 {} else if s == 21 {} else {}
  }

  /** Placing and extracting are inverse on the operand's own bits. */
  lemma FieldOfPlace(o: Operand, data: Word)
    requires Known(o)
    ensures Field(Place(data, o), o) == And(data, Ones(o))
  {
    hide KnownShift, And, Shl, Shr, Ones;
    ShiftBack(data, Ones(o), o.shift);
  }

  /** Bits outside the field do not matter to it. */
  lemma FieldOfJoin(o: Operand, other: Word, w: Word)
    requires Known(o) && Clear(MaskOf(o), other)
    ensures Field(Join(other, w), o) == Field(w, o)
  {
    hide KnownShift, And, Shl, Shr, Ones, Join, Clear;
    ShiftPast(other, w, Ones(o), o.shift);
  }

  /** A placed operand stays within its field. */
  lemma PlaceWithin(o: Operand, data: Word)
    requires Known(o)
    ensures Within(Place(data, o), MaskOf(o))
  {
    hide KnownShift, And, Shl, Shr, Ones, Within;
    ShiftWithin(data, Ones(o), o.shift);
  }

  // ---------------------------------------------------------------- bits of words

  lemma WithinMore(a: Word, b: Word, c: Word)
    requires Within(a, b)
    ensures Within(a, Join(b, c))
  {
  }

  lemma WithinBoth(a: Word, b: Word, c: Word)
    requires Within(a, c) && Within(b, c)
    ensures Within(Join(a, b), c)
  {
  }

  lemma NoBits(a: Word)
    ensures Within(0, a) && Clear(0, a) && Clear(a, 0)
  {
  }

  lemma ClearLess(a: Word, b: Word, c: Word)
    requires Clear(a, Join(b, c))
    ensures Clear(a, b)
  {
  }

  lemma ClearMore(a: Word, b: Word, c: Word)
    requires Clear(a, b) && Clear(a, c)
    ensures Clear(a, Join(b, c))
  {
  }

  lemma ClearSym(a: Word, b: Word)
    ensures Clear(a, b) <==> Clear(b, a)
  {
  }

  /** A word is clear of a union exactly when it is clear of both parts. */
  lemma ClearSplit(a: Word, b: Word, c: Word)
    ensures Clear(a, Join(b, c)) <==> Clear(a, b) && Clear(a, c)
    ensures Clear(Join(b, c), a) <==> Clear(b, a) && Clear(c, a)
  {
    hide Clear, Join;
    ClearSym(a, Join(b, c));
    ClearSym(a, b);
    ClearSym(a, c);
    if Clear(a, Join(b, c)) {
      ClearLess(a, b, c);
      JoinComm(b, c);
      ClearLess(a, c, b);
    }
    if Clear(a, b) && Clear(a, c) { ClearMore(a, b, c); }
  }

  lemma ClearWithin(a: Word, b: Word, c: Word)
    requires Clear(a, b) && Within(c, b)
    ensures Clear(a, c)
  {
  }

  lemma AndJoin(a: Word, b: Word, mask: Word)
    requires Clear(b, mask)
    ensures And(Join(a, b), mask) == And(a, mask)
  {
  }

  lemma JoinComm(a: Word, b: Word)
    ensures Join(a, b) == Join(b, a)
  {
  }

  lemma AndWithin(a: Word, mask: Word)
    requires Within(a, mask)
    ensures And(a, mask) == a
  {
  }

  // ---------------------------------------------------------------- all operands of an instruction

  function Wanted(fields: seq<Operand>): nat {
    if fields == [] then 0 else (if fields[0].hint.Silent? then 0 else 1) + Wanted(fields[1..])
  }

  /** The word `asmppc` accumulates: silent operands are skipped, every other one is or-ed in. */
  function Packed(instr: Word, fields: seq<Operand>, data: seq<Word>): Word
    requires |data| == Wanted(fields)
    decreases |fields|
  {
    if fields == [] then instr
    else if fields[0].hint.Silent? then Packed(instr, fields[1..], data)
    else Packed(Join(instr, Place(data[0], fields[0])), fields[1..], data[1..])
  }

  /** Everything placed lies in the fields that were not skipped. */
  lemma {:induction false} PackedSplit(instr: Word, fields: seq<Operand>, mask: Word, data: seq<Word>)
    requires |data| == Wanted(fields) && Fit(fields, mask)
    ensures Packed(instr, fields, data) == Join(instr, Packed(0, fields, data))
    ensures Within(Packed(0, fields, data), UsedBy(fields))
    decreases |fields|
  {
    hide Join, Clear, Within, Place, MaskOf, Known;
    JoinAssoc(instr, 0, 0);
    NoBits(UsedBy(fields));
    if fields != [] {
      var o, rest := fields[0], fields[1..];
      if o.hint.Silent? {
        PackedSplit(instr, rest, mask, data);
      } else {
        var p := Place(data[0], o);
        PackedSplit(Join(instr, p), rest, mask, data[1..]);
        PackedSplit(Join(0, p), rest, mask, data[1..]);
        var r := Packed(0, rest, data[1..]);
        JoinAssoc(instr, p, r);
        JoinAssoc(p, 0, 0);
        PlaceWithin(o, data[0]);
        WithinMore(p, MaskOf(o), UsedBy(rest));
        JoinComm(MaskOf(o), UsedBy(rest));
        WithinMore(r, UsedBy(rest), MaskOf(o));
        WithinBoth(p, r, UsedBy(fields));
      }
    }
  }

  /** None of the operand fields reaches into the opcode mask. */
  lemma {:induction false} FieldsClearOfMask(fields: seq<Operand>, mask: Word)
    requires Fit(fields, mask)
    ensures Clear(UsedBy(fields), mask)
  {
    hide Join, Clear, Within, MaskOf, Known;
    NoBits(mask);
    if fields != [] {
      var o, rest := fields[0], fields[1..];
      FieldsClearOfMask(rest, mask);
      if !o.hint.Silent? {
        ClearSplit(MaskOf(o), mask, UsedBy(rest));
        ClearSplit(mask, UsedBy(rest), MaskOf(o));
      }
    }
  }

  /** Packing operands leaves the fixed bits of the instruction alone. */
  lemma PackedKeepsOpcode(e: Row, data: seq<Word>)
    requires |data| == Wanted(e.form.fields)
    ensures And(Packed(e.opcode, e.form.fields, data), e.form.mask) == e.opcode
  {
    hide Join, Clear, Within, And, Fit, UsedBy, Packed;
    var r := Packed(0, e.form.fields, data);
    PackedSplit(e.opcode, e.form.fields, e.form.mask, data);
    FieldsClearOfMask(e.form.fields, e.form.mask);
    ClearSym(UsedBy(e.form.fields), e.form.mask);
    ClearWithin(e.form.mask, UsedBy(e.form.fields), r);
    ClearSym(e.form.mask, r);
    AndJoin(e.opcode, r, e.form.mask);
    AndWithin(e.opcode, e.form.mask);
  }

  /** Every operand that was not skipped comes out of the instruction as it went in, cut to its width. */
  lemma {:induction false} PackedRecovers(instr: Word, fields: seq<Operand>, mask: Word, data: seq<Word>, k: nat)
    requires |data| == Wanted(fields) && Fit(fields, mask)
    requires k < |fields| && !fields[k].hint.Silent?
    requires Clear(UsedBy(fields), instr)
    ensures Wanted(fields[..k]) < |data|
    ensures Field(Packed(instr, fields, data), fields[k]) == And(data[Wanted(fields[..k])], Ones(fields[k]))
    decreases |fields|
  {
    hide Join, Clear, Within, And, Place, Field, MaskOf, Known, Ones;
    var o, rest := fields[0], fields[1..];
    if k == 0 {
      assert fields[..0] == [];
      var p := Place(data[0], o);
      var r := Packed(0, rest, data[1..]);
      PackedSplit(Join(instr, p), rest, mask, data[1..]);
      ClearSplit(instr, UsedBy(rest), MaskOf(o));
      ClearSplit(MaskOf(o), mask, UsedBy(rest));
      ClearWithin(MaskOf(o), UsedBy(rest), r);
      JoinComm(Join(instr, p), r);
      FieldOfJoin(o, r, Join(instr, p));
      FieldOfJoin(o, instr, p);
      FieldOfPlace(o, data[0]);
    } else {
      assert fields[..k] == [o] + rest[..k - 1];
      assert fields[..k][1..] == rest[..k - 1];
      if o.hint.Silent? {
        PackedRecovers(instr, rest, mask, data, k - 1);
      } else {
        var p := Place(data[0], o);
        ClearSplit(instr, UsedBy(rest), MaskOf(o));
        ClearSplit(MaskOf(o), mask, UsedBy(rest));
        ClearSym(UsedBy(rest), MaskOf(o));
        PlaceWithin(o, data[0]);
        ClearWithin(UsedBy(rest), MaskOf(o), p);
        ClearSplit(UsedBy(rest), instr, p);
        PackedRecovers(Join(instr, p), rest, mask, data[1..], k - 1);
      }
    }
  }
}
