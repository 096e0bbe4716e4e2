/** The firmware packer and the accept checks of the extractor (fw-utils/mkSmartQ.c, fw-utils/extract.c and
    fw-utils/firmware_header.h): what is packed is found again, and the header passes. */
module Firmware {

  import opened LittleEndian

  const MAX_SECTIONS: nat := 6
  const HEADER: nat := 176
  const MAGIC: nat := 0x39000032
  const MACH_SMARTQ5: nat := 2534
  const MACH_SMARTQ7: nat := 2479
  const SIZE_PER_READ: nat := 4 * 1024 * 1024
  const VENDOR: seq<Byte> := [104, 104, 116, 101, 99, 104]  // "hhtech"

  // Byte offsets of the header's fields; section i's record starts at STANZA + 20 * i.
  const CHECK_SUM: nat := 4
  const FH_SIZE: nat := 8
  const VENDOR_AT: nat := 20
  const MACH_TYPE: nat := 48
  const COUNT: nat := 52
  const STANZA: nat := 56

  // ---------------------------------------------------------------- sums of bytes

  function Sum(s: seq<Byte>): nat {
    if s == [] then 0 else Sum(s[..|s| - 1]) + s[|s| - 1]
  }

  lemma SumNext(s: seq<Byte>, i: nat)
    requires i < |s|
    ensures Sum(s[..i + 1]) == Sum(s[..i]) + s[i]
  {
    assert s[..i + 1][..i] == s[..i];
  }

  lemma {:induction false} SumJoin(a: seq<Byte>, b: seq<Byte>)
    ensures Sum(a + b) == Sum(a) + Sum(b)
  {
    if b == [] {
      assert a + b == a;
    } else {
      SumJoin(a, b[..|b| - 1]);
      assert (a + b)[..|a + b| - 1] == a + b[..|b| - 1];
    }
  }

  /** One byte changed changes the sum by the difference. */
  lemma SumChanged(s: seq<Byte>, i: nat, b: Byte)
    requires i < |s|
    ensures s[i] <= Sum(s) && Sum(s[i := b]) == Sum(s) - s[i] + b
  {
    var pre, post := s[..i], s[i + 1..];
    assert s == pre + [s[i]] + post && s[i := b] == pre + [b] + post;
    SumJoin(pre + [s[i]], post);
    SumJoin(pre + [b], post);
    SumJoin(pre, [s[i]]);
    SumJoin(pre, [b]);
    SumOne(s[i]);
    SumOne(b);
  }

  lemma SumOne(b: Byte)
    ensures Sum([b]) == b
  {
    assert [b][..0] == [];
  }

  /** Adding in 32 bits as one goes is adding and cutting off once. */
  lemma AddCut(a: nat, b: nat)
    ensures (a % WORD + b % WORD) % WORD == (a + b) % WORD
  {
  }

  lemma NextPart(file: seq<Byte>, size: nat, n: nat)
    requires size + n <= |file|
    ensures Sum(file[..size + n]) == Sum(file[..size]) + Sum(file[size..size + n])
  {
    SumJoin(file[..size], file[size..size + n]);
    assert file[..size] + file[size..size + n] == file[..size + n];
  }

  /** `get_sum`: the bytes' sum in 32 bits. */
  method GetSum(buffer: array<Byte>, size: nat) returns (ret: nat)
    requires size <= buffer.Length
    ensures ret == Sum(buffer[..size]) % WORD
  {
    hide Sum;
    SumNone();
    ret := 0;
    assert buffer[..0] == [];
    for i := 0 to size
      invariant ret == Sum(buffer[..i]) % WORD
    {
      BytesNext(buffer[..], i);
      assert buffer[..][..i] == buffer[..i] && buffer[..][..i + 1] == buffer[..i + 1];
      ret := (ret + buffer[i]) % WORD;
    }
  }

  lemma BytesNext(s: seq<Byte>, i: nat)
    requires i < |s|
    ensures (Sum(s[..i]) % WORD + s[i]) % WORD == Sum(s[..i + 1]) % WORD
  {
    SumNext(s, i);
    hide Sum;
    AddCut(Sum(s[..i]), s[i]);
  }

  /** `read`: the next bytes of the file into the front of the buffer, as many as are asked for and there. */
  method Read(file: seq<Byte>, at: nat, buffer: array<Byte>, count: nat) returns (n: nat)
    requires at <= |file| && count <= buffer.Length
    modifies buffer
    ensures n == if count <= |file| - at then count else |file| - at
    ensures buffer[..n] == file[at..at + n]
  {
    n := if count <= |file| - at then count else |file| - at;
    forall i | 0 <= i < n { buffer[i] := file[at + i]; }
  }

  /** `get_check_sum`: the sum of the whole file, 4 MB at a time through one buffer. */
  method GetCheckSum(file: seq<Byte>, buffer: array<Byte>) returns (ret: nat)
    requires buffer.Length == SIZE_PER_READ && |file| < 0x8000_0000
    modifies buffer
    ensures ret == Sum(file) % WORD
  {
    hide Sum;
    var remnant, size := |file|, 0;
    ret := 0;
    assert file[..0] == [];
    SumNone();
    while remnant / SIZE_PER_READ > 0
      invariant 0 <= size <= |file| && remnant == |file| - size
      invariant ret == Sum(file[..size]) % WORD
    {
      var n := Read(file, size, buffer, SIZE_PER_READ);
      var sum := GetSum(buffer, SIZE_PER_READ);
      NextPart(file, size, n);
      AddCut(Sum(file[..size]), Sum(file[size..size + n]));
      ret := (ret + sum) % WORD;
      size := size + n;
      remnant := |file| - size;
    }
    var n := Read(file, size, buffer, remnant);
    var sum := GetSum(buffer, remnant);
    NextPart(file, size, n);
    AddCut(Sum(file[..size]), Sum(file[size..size + n]));
    assert file[..size + n] == file;
    ret := (ret + sum) % WORD;
  }

  lemma SumNone()
    ensures Sum([]) == 0
  {
  }

  // ---------------------------------------------------------------- the header

  /** A row of the section table. */
  datatype Section = Section(nandOffset: nat, fileSize: nat, checkSum: nat)

  predicate Words(sects: seq<Section>) {
    |sects| == MAX_SECTIONS &&
    forall i :: 0 <= i < MAX_SECTIONS ==>
      sects[i].nandOffset < WORD && sects[i].fileSize < WORD && sects[i].checkSum < WORD
  }

  /** Where the section after the first `n` begins in the file. */
  function OffsetOf(sects: seq<Section>, n: nat): nat
    requires n <= |sects|
  {
    if n == 0 then HEADER else OffsetOf(sects, n - 1) + sects[n - 1].fileSize
  }

  /** A section's record: where it is in the file, where it goes in the flash, and its checksum. */
  function StanzaBytes(offset: nat, s: Section): (r: seq<Byte>)
    requires s.nandOffset < WORD && s.fileSize < WORD && s.checkSum < WORD
    ensures |r| == 20
  {
    Le32(offset % WORD) + Le32(s.fileSize) + Le32(s.nandOffset) + Le32(s.fileSize) + Le32(s.checkSum)
  }

  function Stanzas(sects: seq<Section>, n: nat): (r: seq<Byte>)
    requires Words(sects) && n <= MAX_SECTIONS
    ensures |r| == 20 * n
  {
    if n == 0 then [] else Stanzas(sects, n - 1) + StanzaBytes(OffsetOf(sects, n - 1), sects[n - 1])
  }

  function Zeros(n: nat): (r: seq<Byte>)
    ensures |r| == n
  {
    seq(n, i => 0)
  }

  /** The header from the size field to the section count. */
  function Fields(date: nat, mach: nat): (r: seq<Byte>)
    requires date < WORD && mach < WORD
    ensures |r| == 48
  {
    Le32(HEADER) + Le32(1) + Le32(date) + (VENDOR + Zeros(22)) + Le32(mach) + Le32(MAX_SECTIONS)
  }

  /** Everything the header's checksum covers. */
  function Covered(date: nat, mach: nat, sects: seq<Section>): (r: seq<Byte>)
    requires date < WORD && mach < WORD && Words(sects)
    ensures |r| == HEADER - 8
  {
    Fields(date, mach) + Stanzas(sects, MAX_SECTIONS)
  }

  method PutBytes(mem: array<Byte>, at: nat, bytes: seq<Byte>)
    requires at + |bytes| <= mem.Length
    modifies mem
    ensures mem[..] == Overwrite(old(mem[..]), at, bytes)
  {
    hide Overwrite;
    var i := 0;
    NothingOver(mem[..], at);
    while i < |bytes|
      invariant 0 <= i <= |bytes| && mem[..] == Overwrite(old(mem[..]), at, bytes[..i])
    {
      OneMore(old(mem[..]), at, bytes[..i], bytes[i]);
      assert bytes[..i] + [bytes[i]] == bytes[..i + 1];
      mem[at + i] := bytes[i];
      i := i + 1;
    }
    assert bytes[..i] == bytes;
  }

  method PutStanza(fw: array<Byte>, at: nat, offset: nat, s: Section)
    requires at + 20 <= fw.Length && s.nandOffset < WORD && s.fileSize < WORD && s.checkSum < WORD
    requires offset < WORD
    modifies fw
    ensures fw[..] == Overwrite(old(fw[..]), at, StanzaBytes(offset, s))
  {
    hide Overwrite, Le32;
    ghost var m := fw[..];
    Put32(fw, at, offset);
    Put32(fw, at + 4, s.fileSize);
    Put32(fw, at + 16, s.checkSum);
    Put32(fw, at + 8, s.nandOffset);
    Put32(fw, at + 12, s.fileSize);
    ghost var file, nand := Le32(offset) + Le32(s.fileSize), Le32(s.nandOffset) + Le32(s.fileSize);
    Adjoining(m, at, Le32(offset), Le32(s.fileSize));
    ghost var m1 := Overwrite(m, at, file);
    Adjoining(Overwrite(m1, at + 16, Le32(s.checkSum)), at + 8, Le32(s.nandOffset), Le32(s.fileSize));
    Adjoining(m1, at + 8, nand, Le32(s.checkSum));
    Adjoining(m, at, file, nand + Le32(s.checkSum));
    assert file + (nand + Le32(s.checkSum)) == StanzaBytes(offset, s);
  }

  /** `fill_fw_fh`, on a header cleared before: everything but the checksum. */
  method FillHeader(fw: array<Byte>, sects: seq<Section>, date: nat, mach: nat)
    requires fw.Length == HEADER && fw[..] == Zeros(HEADER) && Words(sects) && date < WORD && mach < WORD
    modifies fw
    ensures fw[..] == Le32(MAGIC) + Zeros(4) + Covered(date, mach, sects)
  {
    hide Overwrite, Le32, Stanzas, Words;
    Put32(fw, 0, MAGIC);
    ghost var m := fw[..];
    Put32(fw, FH_SIZE, HEADER);
    Put32(fw, 12, 1);
    Put32(fw, 16, date);
    ghost var a := Le32(HEADER) + Le32(1) + Le32(date);
    Adjoining(m, 8, Le32(HEADER), Le32(1));
    Adjoining(m, 8, Le32(HEADER) + Le32(1), Le32(date));
    PutVendor(fw);
    Adjoining(m, 8, a, VENDOR + Zeros(22));
    Put32(fw, MACH_TYPE, mach);
    Adjoining(m, 8, a + (VENDOR + Zeros(22)), Le32(mach));
    Put32(fw, COUNT, MAX_SECTIONS);
    Adjoining(m, 8, a + (VENDOR + Zeros(22)) + Le32(mach), Le32(MAX_SECTIONS));
    assert fw[..] == Overwrite(m, 8, Fields(date, mach));
    PutStanzas(fw, m, sects, Fields(date, mach));
    Whole(m, Covered(date, mach, sects));
  }

  /** `memset` and `strcpy` of the vendor's name. */
  method PutVendor(fw: array<Byte>)
    requires fw.Length == HEADER
    modifies fw
    ensures fw[..] == Overwrite(old(fw[..]), VENDOR_AT, VENDOR + Zeros(22))
  {
    PutBytes(fw, VENDOR_AT, Zeros(28));
    PutBytes(fw, VENDOR_AT, VENDOR + [0]);
    var m := old(fw[..]);
    assert Overwrite(Overwrite(m, VENDOR_AT, Zeros(28)), VENDOR_AT, VENDOR + [0]) ==
           Overwrite(m, VENDOR_AT, VENDOR + Zeros(22));
  }

  /** The loop over the section table. */
  method PutStanzas(fw: array<Byte>, ghost m: seq<Byte>, sects: seq<Section>, ghost fields: seq<Byte>)
    requires fw.Length == HEADER == |m| && |fields| == 48 && fw[..] == Overwrite(m, 8, fields) && Words(sects)
    modifies fw
    ensures fw[..] == Overwrite(m, 8, fields + Stanzas(sects, MAX_SECTIONS))
  {
    hide Overwrite, StanzaBytes, Stanzas;
    var fileOffset, i := HEADER, 0;
    NoStanza(fields, sects);
    while i < MAX_SECTIONS
      invariant 0 <= i <= MAX_SECTIONS && fileOffset == OffsetOf(sects, i) % WORD
      invariant fw[..] == Overwrite(m, 8, fields + Stanzas(sects, i))
    {
      PutStanza(fw, STANZA + 20 * i, fileOffset, sects[i]);
      SameStanza(OffsetOf(sects, i), sects[i]);
      NextStanza(m, fields, sects, i);
      AddCut(OffsetOf(sects, i), sects[i].fileSize);
      fileOffset := (fileOffset + sects[i].fileSize) % WORD;
      i := i + 1;
    }
  }

  lemma NoStanza(fields: seq<Byte>, sects: seq<Section>)
    requires Words(sects)
    ensures fields + Stanzas(sects, 0) == fields
  {
  }

  lemma NextStanza(m: seq<Byte>, fields: seq<Byte>, sects: seq<Section>, i: nat)
    requires |m| == HEADER && |fields| == 48 && Words(sects) && i < MAX_SECTIONS
    ensures Overwrite(Overwrite(m, 8, fields + Stanzas(sects, i)), STANZA + 20 * i,
                      StanzaBytes(OffsetOf(sects, i), sects[i])) ==
            Overwrite(m, 8, fields + Stanzas(sects, i + 1))
  {
    hide Overwrite, StanzaBytes;
    var next := StanzaBytes(OffsetOf(sects, i), sects[i]);
    Adjoining(m, 8, fields + Stanzas(sects, i), next);
    assert fields + Stanzas(sects, i) + next == fields + (Stanzas(sects, i) + next);
  }

  lemma SameStanza(offset: nat, s: Section)
    requires s.nandOffset < WORD && s.fileSize < WORD && s.checkSum < WORD
    ensures StanzaBytes(offset % WORD, s) == StanzaBytes(offset, s)
  {
  }

  lemma Whole(m: seq<Byte>, covered: seq<Byte>)
    requires m == Overwrite(Zeros(HEADER), 0, Le32(MAGIC)) && |covered| == HEADER - 8
    ensures Overwrite(m, 8, covered) == Le32(MAGIC) + Zeros(4) + covered
  {
    hide Le32;
    assert m[..8] == Le32(MAGIC) + Zeros(4);
  }

  // ---------------------------------------------------------------- the extractor's checks

  function SumFrom8(h: seq<Byte>, size: nat): nat
    requires size <= |h|
  {
    if size < 8 then 0 else Sum(h[8..size]) % WORD
  }

  /** `get_fw_fh_check_sum`, which both programs have: the bytes from the size field to `size`. */
  method HeaderSum(h: seq<Byte>, size: nat) returns (ret: nat)
    requires size <= |h|
    ensures ret == SumFrom8(h, size)
  {
    hide Sum;
    SumNone();
    ret := 0;
    var i := 8;
    assert size >= 8 ==> h[8..8] == [];
    while i < size
      invariant 8 <= i && (size >= 8 ==> i <= size && ret == Sum(h[8..i]) % WORD) && (size < 8 ==> ret == 0)
    {
      SumNext(h[8..], i - 8);
      assert h[8..][..i - 8] == h[8..i] && h[8..][..i - 8 + 1] == h[8..i + 1];
      AddCut(Sum(h[8..i]), h[i]);
      ret := (ret + h[i]) % WORD;
      i := i + 1;
    }
  }

  /** Which machine the extractor runs on, as it asks the kernel. */
  datatype Machine = SmartQ5 | SmartQ7 | Other

  /** The vendor's name as a C string. */
  predicate VendorIs(h: seq<Byte>)
    requires HEADER <= |h|
  {
    h[VENDOR_AT..VENDOR_AT + 6] == VENDOR && h[VENDOR_AT + 6] == 0
  }

  predicate WrongMachine(machType: nat, machine: Machine) {
    (machType == MACH_SMARTQ5 && machine == SmartQ7) || (machType == MACH_SMARTQ7 && machine == SmartQ5)
  }

  ghost predicate Accepted(h: seq<Byte>, machine: Machine)
    requires HEADER <= |h| && Get32(h, FH_SIZE) <= |h|
  {
    && Get32(h, 0) == MAGIC
    && SumFrom8(h, Get32(h, FH_SIZE)) == Get32(h, CHECK_SUM)
    && !WrongMachine(Get32(h, MACH_TYPE), machine)
    && VendorIs(h)
  }

  lemma VendorLetters(h: seq<Byte>)
    requires HEADER <= |h|
    ensures VendorIs(h) <==> h[20..27] == [104, 104, 116, 101, 99, 104, 0]
  {
    assert h[20..27] == h[20..26] + [h[26]];
    assert VENDOR + [0] == [104, 104, 116, 101, 99, 104, 0];
    if h[20..27] == VENDOR + [0] {
      assert h[20..26] == h[20..27][..6] && h[26] == h[20..27][6];
    }
  }

  /** `extract`: 0 exactly for the headers described above. */
  method Extract(h: seq<Byte>, machine: Machine) returns (ret: int)
    requires HEADER <= |h| && Get32(h, FH_SIZE) <= |h|
    ensures ret == if Accepted(h, machine) then 0 else -1
    ensures ret == 0 <==>
              && Get32(h, 0) == 0x39000032 && Get32(h, 4) == SumFrom8(h, Get32(h, 8))
              && !(Get32(h, 48) == 2534 && machine == SmartQ7) && !(Get32(h, 48) == 2479 && machine == SmartQ5)
              && h[20..27] == [104, 104, 116, 101, 99, 104, 0]
  {
    VendorLetters(h);
    if Get32(h, 0) != MAGIC {
      return -1;
    }
    var sum := HeaderSum(h, Get32(h, FH_SIZE));
    if sum != Get32(h, CHECK_SUM) {
      return -1;
    }
    var machType := Get32(h, MACH_TYPE);
    if machType != 0 {
      if machType == MACH_SMARTQ5 {
        if machine == SmartQ7 { return -1; }
      } else if machType == MACH_SMARTQ7 {
        if machine == SmartQ5 { return -1; }
      }
    }
    if !(h[VENDOR_AT..VENDOR_AT + 6] == VENDOR && h[VENDOR_AT + 6] == 0) {
      return -1;
    }
    return 0;
  }

  /** A word with one wrong byte is another word. */
  lemma WordDiffers(h: seq<Byte>, at: nat, i: nat, b: Byte)
    requires at <= i < at + 4 <= |h| && b != h[i]
    ensures Get32(h[i := b], at) != Get32(h, at)
  {
  }

  /** A header with one wrong byte is refused, wherever it is: in the magic, in the checksum, or in what the
      checksum covers; except in the size field, which says how much that is. */
  lemma WrongByteRefused(h: seq<Byte>, i: nat, b: Byte, machine: Machine)
    requires HEADER <= |h| && Get32(h, FH_SIZE) <= |h| && Accepted(h, machine)
    requires (i < FH_SIZE || FH_SIZE + 4 <= i < Get32(h, FH_SIZE)) && i < |h| && b != h[i]
    ensures var bad := h[i := b]; Get32(bad, FH_SIZE) == Get32(h, FH_SIZE) && !Accepted(bad, machine)
  {
    hide Sum;
    var bad, size := h[i := b], Get32(h, FH_SIZE);
    if i < CHECK_SUM {
      WordDiffers(h, 0, i, b);
    } else if i < FH_SIZE {
      WordDiffers(h, CHECK_SUM, i, b);
      assert size >= 8 ==> bad[8..size] == h[8..size];
    } else {
      assert bad[8..size] == h[8..size][i - 8 := b];
      SumChanged(h[8..size], i - 8, b);
      CutDiffers(Sum(h[8..size]), b, h[i]);
    }
  }

  lemma CutDiffers(sum: nat, b: Byte, was: Byte)
    requires b != was && was <= sum
    ensures (sum - was + b) % WORD != sum % WORD
  {
  }

  // ---------------------------------------------------------------- the packer

  /** A command-line argument: "." or a file. */
  datatype Arg = Skip | File(bytes: seq<Byte>)

  function Payload(args: seq<Arg>, i: nat): seq<Byte> {
    if i < |args| && args[i].File? then args[i].bytes else []
  }

  /** The payloads of the first `n` arguments end to end. */
  function Joined(args: seq<Arg>, n: nat): seq<Byte> {
    if n == 0 then [] else Joined(args, n - 1) + Payload(args, n - 1)
  }

  /** The table as the program starts with it: where each section goes in the flash. */
  const TABLE: seq<Section> := [Section(0, 0, 0), Section(2, 0, 0), Section(514, 0, 0), Section(4096, 0, 0),
                                Section(0, 0, 0), Section(0, 0, 0)]

  ghost predicate Describes(sects: seq<Section>, args: seq<Arg>) {
    |sects| == MAX_SECTIONS && forall i :: 0 <= i < MAX_SECTIONS ==>
      sects[i] == Section(TABLE[i].nandOffset, |Payload(args, i)|, Sum(Payload(args, i)) % WORD)
  }

  predicate Packable(args: seq<Arg>) {
    4 <= |args| <= MAX_SECTIONS && (forall a <- args :: a.File? ==> |a.bytes| < 0x8000_0000) &&
    HEADER + |Joined(args, MAX_SECTIONS)| < WORD
  }

  /** The first loop of `main`: sizes and checksums of the files given. */
  method FillTable(args: seq<Arg>, buffer: array<Byte>, sects: array<Section>)
    requires Packable(args) && buffer.Length == SIZE_PER_READ && sects[..] == TABLE
    modifies buffer, sects
    ensures Describes(sects[..], args)
  {
    hide Sum, Packable;
    assert forall a <- args :: a.File? ==> |a.bytes| < 0x8000_0000 by { PackableFiles(args); }
    SumNone();
    var i := 0;
    while i < MAX_SECTIONS
      invariant 0 <= i <= MAX_SECTIONS && i <= |args|
      invariant forall k :: 0 <= k < i ==>
        sects[k] == Section(TABLE[k].nandOffset, |Payload(args, k)|, Sum(Payload(args, k)) % WORD)
      invariant forall k :: i <= k < MAX_SECTIONS ==> sects[k] == TABLE[k]
    {
      if i == |args| { break; }
      if args[i].Skip? {
        sects[i] := sects[i].(fileSize := 0, checkSum := 0);
        i := i + 1;
        continue;
      }
      var checkSum := GetCheckSum(args[i].bytes, buffer);
      sects[i] := sects[i].(fileSize := |args[i].bytes|, checkSum := checkSum);
      i := i + 1;
    }
  }

  lemma PackableFiles(args: seq<Arg>)
    requires Packable(args)
    ensures 4 <= |args| <= MAX_SECTIONS && forall a <- args :: a.File? ==> |a.bytes| < 0x8000_0000
  {
  }

  /** `main`, for a set of files that stay as they are while it runs: the image it writes. */
  method Pack(args: seq<Arg>, date: nat, mach: nat) returns (image: seq<Byte>)
    requires Packable(args) && date < WORD && mach in {MACH_SMARTQ5, MACH_SMARTQ7}
    ensures |image| == HEADER + |Joined(args, MAX_SECTIONS)| && image[HEADER..] == Joined(args, MAX_SECTIONS)
    ensures forall i :: 0 <= i < MAX_SECTIONS ==> SectionFound(image, args, i)
    ensures HeaderFound(image, date, mach)
    ensures forall i :: 0 <= i < MAX_SECTIONS ==> FileFound(image, args, i)
    ensures forall i :: 1 <= i < MAX_SECTIONS ==> Adjoined(image, i)
    ensures Get32(image[..HEADER], FH_SIZE) == HEADER
    ensures forall machine: Machine :: Accepted(image[..HEADER], machine) <==>
              !(mach == 2534 && machine == SmartQ7) && !(mach == 2479 && machine == SmartQ5)
  {
    hide Sum, Packable, Covered, Le32, IsHeader, SectionFound, FileFound, Adjoined, HeaderFound, Accepted, Describes,
         Get32;
    PackableFiles(args);
    PackableTotal(args);
    var buffer := new Byte[SIZE_PER_READ](_ => 0);
    var sects := new Section[MAX_SECTIONS](i requires 0 <= i < MAX_SECTIONS => TABLE[i]);
    assert sects[..] == TABLE;
    FillTable(args, buffer, sects);
    DescribedWords(args, sects[..]);
    var fw := new Byte[HEADER](_ => 0);
    assert fw[..] == Zeros(HEADER);
    FillHeader(fw, sects[..], date, mach);
    var check := HeaderSum(fw[..], HEADER);
    Put32(fw, CHECK_SUM, check);
    HeaderDone(fw[..], check, date, mach, sects[..]);
    image := Append(fw[..], args);
    Checked(fw[..], check, date, mach, sects[..]);
    forall i | 0 <= i < MAX_SECTIONS ensures SectionFound(image, args, i) {
      Recorded(args, fw[..], check, date, mach, sects[..], i);
      Found(image, args, fw[..], sects[i], i);
    }
    assert image[..HEADER] == fw[..];
    HeaderRead(image, fw[..], check, date, mach, sects[..]);
    forall i | 0 <= i < MAX_SECTIONS ensures FileFound(image, args, i) { SectionIsFile(image, args, i); }
    forall i | 1 <= i < MAX_SECTIONS ensures Adjoined(image, i) { SectionsAdjoin(image, args, i); }
  }

  /** The last loop of `main`: every file given, one after the other, after the header. */
  method Append(header: seq<Byte>, args: seq<Arg>) returns (image: seq<Byte>)
    requires |args| <= MAX_SECTIONS
    ensures image == header + Joined(args, MAX_SECTIONS)
  {
    hide Joined;
    image := header;
    var i := 0;
    AppendNothing(header, args);
    while i < |args|
      invariant 0 <= i <= |args| && image == header + Joined(args, i)
    {
      AppendNext(header, args, i);
      if args[i].File? {
        image := image + args[i].bytes;
      }
      i := i + 1;
    }
    JoinedEnds(args, |args|);
  }

  lemma AppendNothing(header: seq<Byte>, args: seq<Arg>)
    ensures header + Joined(args, 0) == header
  {
  }

  lemma AppendNext(header: seq<Byte>, args: seq<Arg>, i: nat)
    requires i < |args|
    ensures header + Joined(args, i + 1) ==
            if args[i].File? then header + Joined(args, i) + args[i].bytes else header + Joined(args, i)
  {
  }

  /** Section `i` of an image stands where its record in the header says, byte for byte, directly after the
      sections before it, and its checksum is the sum of its bytes. */
  predicate SectionFound(image: seq<Byte>, args: seq<Arg>, i: nat)
    requires HEADER <= |image| && i < MAX_SECTIONS
  {
    var at := STANZA + 20 * i;
    var offset, size := Get32(image, at), Get32(image, at + 4);
    && offset == HEADER + |Joined(args, i)|
    && offset + size <= |image| && image[offset..offset + size] == Payload(args, i)
    && Get32(image, at + 8) == TABLE[i].nandOffset && Get32(image, at + 12) == size
    && Get32(image, at + 16) == Sum(Payload(args, i)) % WORD
  }

  /** The header's fields, as another program reads them. */
  predicate HeaderFound(image: seq<Byte>, date: nat, mach: nat) {
    && 176 <= |image| && Get32(image, 0) == 0x39000032 && Get32(image, 4) == Sum(image[8..176]) % 0x1_0000_0000
    && Get32(image, 8) == 176 && Get32(image, 12) == 1 && Get32(image, 16) == date
    && image[20..27] == [104, 104, 116, 101, 99, 104, 0] && Get32(image, 48) == mach && Get32(image, 52) == 6
  }

  /** The file given for section `i`, if there is one, stands where the header says and goes where the flash wants
      it; a section without a file is empty. */
  predicate FileFound(image: seq<Byte>, args: seq<Arg>, i: nat) {
    && i < 6 && 176 <= |image|
    && var (offset, size) := (Get32(image, 56 + 20 * i), Get32(image, 60 + 20 * i));
       && offset + size <= |image|
       && image[offset..offset + size] == (if i < |args| && args[i].File? then args[i].bytes else [])
       && Get32(image, 64 + 20 * i) == [0, 2, 514, 4096, 0, 0][i]
  }

  /** Section `i` begins where the one before it ends. */
  predicate Adjoined(image: seq<Byte>, i: nat) {
    1 <= i < 6 && 176 <= |image| &&
    Get32(image, 56 + 20 * i) == Get32(image, 36 + 20 * i) + Get32(image, 40 + 20 * i)
  }

  lemma SectionIsFile(image: seq<Byte>, args: seq<Arg>, i: nat)
    requires HEADER <= |image| && i < MAX_SECTIONS && SectionFound(image, args, i)
    ensures FileFound(image, args, i)
  {
    hide Sum, Joined, Get32;
  }

  lemma SectionsAdjoin(image: seq<Byte>, args: seq<Arg>, i: nat)
    requires HEADER <= |image| && 1 <= i < MAX_SECTIONS
    requires SectionFound(image, args, i - 1) && SectionFound(image, args, i)
    ensures Adjoined(image, i)
  {
    hide Sum, Get32, Payload;
    var at := STANZA + 20 * (i - 1);
    assert at == 36 + 20 * i;
    assert |Joined(args, i)| == |Joined(args, i - 1)| + |Payload(args, i - 1)|;
  }

  lemma HeaderRead(image: seq<Byte>, h: seq<Byte>, check: nat, date: nat, mach: nat, sects: seq<Section>)
    requires IsHeader(h, check, date, mach, sects) && HEADER <= |image| && image[..HEADER] == h
    ensures HeaderFound(image, date, mach)
  {
    FieldsRead(h, check, date, mach, sects);
    MoreFieldsRead(h, check, date, mach, sects);
    assert h[8..HEADER] == Covered(date, mach, sects);
    hide Sum, Get32, IsHeader, Covered;
    assert image[8..HEADER] == h[8..HEADER];
    assert image[20..27] == h[20..26] + [h[26]];
    SameWords(image, h);
  }

  lemma SameWords(image: seq<Byte>, h: seq<Byte>)
    requires |h| == HEADER <= |image| && image[..HEADER] == h
    ensures forall at: nat :: at + 4 <= HEADER ==> Get32(image, at) == Get32(h, at)
  {
    forall at: nat | at + 4 <= HEADER ensures Get32(image, at) == Get32(h, at) {
      assert image[at] == h[at] && image[at + 1] == h[at + 1];
      assert image[at + 2] == h[at + 2] && image[at + 3] == h[at + 3];
    }
  }

  lemma MoreFieldsRead(h: seq<Byte>, check: nat, date: nat, mach: nat, sects: seq<Section>)
    requires IsHeader(h, check, date, mach, sects)
    ensures |h| == HEADER && Get32(h, 12) == 1 && Get32(h, 16) == date && Get32(h, COUNT) == MAX_SECTIONS
  {
    hide Sum, Le32, Get32, Stanzas, Words;
    assert h[12..16] == Le32(1) && h[16..20] == Le32(date) && h[52..56] == Le32(MAX_SECTIONS);
    GetAt(h, 12, 1);
    GetAt(h, 16, date);
    GetAt(h, 52, MAX_SECTIONS);
  }

  lemma {:induction false} OffsetIs(sects: seq<Section>, args: seq<Arg>, n: nat)
    requires Describes(sects, args) && n <= MAX_SECTIONS
    ensures OffsetOf(sects, n) == HEADER + |Joined(args, n)|
  {
    hide Sum;
    if n > 0 { OffsetIs(sects, args, n - 1); }
  }

  lemma {:induction false} PayloadAt(args: seq<Arg>, i: nat, n: nat)
    requires i < n
    ensures |Joined(args, i)| + |Payload(args, i)| <= |Joined(args, n)|
    ensures Joined(args, n)[|Joined(args, i)|..|Joined(args, i)| + |Payload(args, i)|] == Payload(args, i)
    decreases n
  {
    hide Payload;
    InJoin(Joined(args, n - 1), Payload(args, n - 1));
    if i < n - 1 {
      PayloadAt(args, i, n - 1);
      InFirst(Joined(args, n - 1), Payload(args, n - 1), |Joined(args, i)|, |Joined(args, i)| + |Payload(args, i)|);
    }
  }

  lemma InFirst(x: seq<Byte>, y: seq<Byte>, a: nat, b: nat)
    requires a <= b <= |x|
    ensures (x + y)[a..b] == x[a..b]
  {
  }

  lemma InJoin(x: seq<Byte>, y: seq<Byte>)
    ensures (x + y)[|x|..|x| + |y|] == y
  {
  }

  lemma {:induction false} StanzaAt(sects: seq<Section>, i: nat, n: nat)
    requires Words(sects) && i < n <= MAX_SECTIONS
    ensures Stanzas(sects, n)[20 * i..20 * i + 20] == StanzaBytes(OffsetOf(sects, i), sects[i])
    decreases n
  {
    hide StanzaBytes, OffsetOf;
    if i < n - 1 {
      StanzaAt(sects, i, n - 1);
      assert Stanzas(sects, n)[20 * i..20 * i + 20] == Stanzas(sects, n - 1)[20 * i..20 * i + 20];
    }
  }

  /** The five words of a record. */
  lemma StanzaReads(mem: seq<Byte>, at: nat, offset: nat, s: Section)
    requires s.nandOffset < WORD && s.fileSize < WORD && s.checkSum < WORD
    requires at + 20 <= |mem| && mem[at..at + 20] == StanzaBytes(offset, s)
    ensures Get32(mem, at) == offset % WORD && Get32(mem, at + 4) == s.fileSize
    ensures Get32(mem, at + 8) == s.nandOffset && Get32(mem, at + 12) == s.fileSize
    ensures Get32(mem, at + 16) == s.checkSum
  {
    hide Le32, Get32;
    Piece(mem, at, 20, 0, 4);
    Piece(mem, at, 20, 4, 8);
    Piece(mem, at, 20, 8, 12);
    Piece(mem, at, 20, 12, 16);
    Piece(mem, at, 20, 16, 20);
    GetAt(mem, at, offset % WORD);
    GetAt(mem, at + 4, s.fileSize);
    GetAt(mem, at + 8, s.nandOffset);
    GetAt(mem, at + 12, s.fileSize);
    GetAt(mem, at + 16, s.checkSum);
  }

  lemma Found(image: seq<Byte>, args: seq<Arg>, h: seq<Byte>, s: Section, i: nat)
    requires |h| == HEADER && i < MAX_SECTIONS && HEADER + |Joined(args, MAX_SECTIONS)| < WORD
    requires image == h + Joined(args, MAX_SECTIONS) && |Payload(args, i)| < WORD
    requires s == Section(TABLE[i].nandOffset, |Payload(args, i)|, Sum(Payload(args, i)) % WORD)
    requires h[STANZA + 20 * i..STANZA + 20 * i + 20] == StanzaBytes(HEADER + |Joined(args, i)|, s)
    ensures SectionFound(image, args, i)
  {
    hide Sum, Get32, StanzaBytes, Joined, Payload;
    PayloadAt(args, i, MAX_SECTIONS);
    var at, a, b := STANZA + 20 * i, |Joined(args, i)|, |Joined(args, i)| + |Payload(args, i)|;
    assert image[at..at + 20] == h[at..at + 20];
    StanzaReads(image, at, HEADER + a, s);
    BehindHeader(h, Joined(args, MAX_SECTIONS), a, b);
    assert image[HEADER + a..HEADER + b] == Payload(args, i);
  }

  /** The record of section `i` in a finished header. */
  lemma Recorded(args: seq<Arg>, h: seq<Byte>, check: nat, date: nat, mach: nat, sects: seq<Section>, i: nat)
    requires Describes(sects, args) && IsHeader(h, check, date, mach, sects) && i < MAX_SECTIONS
    ensures |h| == HEADER && |Payload(args, i)| < WORD
    ensures sects[i] == Section(TABLE[i].nandOffset, |Payload(args, i)|, Sum(Payload(args, i)) % WORD)
    ensures h[STANZA + 20 * i..STANZA + 20 * i + 20] == StanzaBytes(HEADER + |Joined(args, i)|, sects[i])
  {
    hide Sum, Joined, StanzaBytes;
    StanzaInHeader(h, check, date, mach, sects, i);
    OffsetIs(sects, args, i);
    hide IsHeader;
  }

  lemma PackableTotal(args: seq<Arg>)
    requires Packable(args)
    ensures HEADER + |Joined(args, MAX_SECTIONS)| < WORD
  {
  }

  lemma BehindHeader(h: seq<Byte>, all: seq<Byte>, a: nat, b: nat)
    requires |h| == HEADER && a <= b <= |all|
    ensures (h + all)[HEADER + a..HEADER + b] == all[a..b]
  {
  }

  lemma StanzaInHeader(h: seq<Byte>, check: nat, date: nat, mach: nat, sects: seq<Section>, i: nat)
    requires IsHeader(h, check, date, mach, sects) && i < MAX_SECTIONS
    ensures |h| == HEADER && Words(sects)
    ensures h[STANZA + 20 * i..STANZA + 20 * i + 20] == StanzaBytes(OffsetOf(sects, i), sects[i])
  {
    hide Sum, Le32, StanzaBytes, OffsetOf, Fields, Stanzas, Words;
    StanzaAt(sects, i, MAX_SECTIONS);
    var s := Stanzas(sects, MAX_SECTIONS);
    assert h == (Le32(MAGIC) + Le32(check) + Fields(date, mach)) + s;
    assert h[STANZA + 20 * i..STANZA + 20 * i + 20] == s[20 * i..20 * i + 20];
  }

  /** A finished header passes the extractor's checks, except on the other machine. */
  lemma Checked(h: seq<Byte>, check: nat, date: nat, mach: nat, sects: seq<Section>)
    requires IsHeader(h, check, date, mach, sects)
    ensures |h| == HEADER && Get32(h, FH_SIZE) == HEADER
    ensures forall machine: Machine :: Accepted(h, machine) <==> !WrongMachine(mach, machine)
  {
    var covered := Covered(date, mach, sects);
    assert h[8..HEADER] == covered;
    FieldsRead(h, check, date, mach, sects);
  }

  lemma FieldsRead(h: seq<Byte>, check: nat, date: nat, mach: nat, sects: seq<Section>)
    requires IsHeader(h, check, date, mach, sects)
    ensures |h| == HEADER && Get32(h, 0) == MAGIC && Get32(h, CHECK_SUM) == check && Get32(h, FH_SIZE) == HEADER
    ensures Get32(h, MACH_TYPE) == mach && VendorIs(h)
  {
    hide Sum, Le32, Get32, Stanzas, Words;
    assert h[0..4] == Le32(MAGIC) && h[4..8] == Le32(check) && h[8..12] == Le32(HEADER);
    assert h[48..52] == Le32(mach) && h[20..48] == VENDOR + Zeros(22);
    assert h[20..26] == h[20..48][..6] && h[26] == h[20..48][6];
    GetAt(h, 0, MAGIC);
    GetAt(h, 4, check);
    GetAt(h, 8, HEADER);
    GetAt(h, 48, mach);
  }

  /** A finished header: the fields and the checksum over them. */
  ghost predicate IsHeader(h: seq<Byte>, check: nat, date: nat, mach: nat, sects: seq<Section>) {
    && date < WORD && mach < WORD && Words(sects) && check == Sum(Covered(date, mach, sects)) % WORD
    && h == Le32(MAGIC) + Le32(check) + Covered(date, mach, sects)
  }

  lemma HeaderDone(h: seq<Byte>, check: nat, date: nat, mach: nat, sects: seq<Section>)
    requires date < WORD && mach < WORD && Words(sects)
    requires var f := Le32(MAGIC) + Zeros(4) + Covered(date, mach, sects);
             check == SumFrom8(f, HEADER) && h == Overwrite(f, CHECK_SUM, Le32(check))
    ensures IsHeader(h, check, date, mach, sects)
  {
    hide Le32, Covered, Sum;
    var f := Le32(MAGIC) + Zeros(4) + Covered(date, mach, sects);
    assert f[8..HEADER] == Covered(date, mach, sects);
    assert f[..4] == Le32(MAGIC) && f[8..] == Covered(date, mach, sects);
  }

  lemma DescribedWords(args: seq<Arg>, sects: seq<Section>)
    requires Packable(args) && Describes(sects, args)
    ensures Words(sects)
  {
    hide Sum;
  }

  lemma {:induction false} JoinedEnds(args: seq<Arg>, n: nat)
    requires |args| <= n <= MAX_SECTIONS
    ensures Joined(args, n) == Joined(args, MAX_SECTIONS)
    decreases MAX_SECTIONS - n
  {
    if n < MAX_SECTIONS {
      JoinedEnds(args, n + 1);
      assert Joined(args, n + 1) == Joined(args, n) + [];
    }
  }
}
