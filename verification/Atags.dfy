/** The parameter list the boot loader leaves for the kernel (qi-usb-lcd/src/phase2.c and include/setup.h),
    written to memory tag by tag and read back by walking it. */
module Atags {

  import opened Arithmetic
  import opened LittleEndian
  import opened Sequences

  const ATAG_NONE: nat := 0
  const ATAG_CORE: nat := 0x54410001
  const ATAG_MEM: nat := 0x54410002
  const ATAG_INITRD2: nat := 0x54420005
  const ATAG_REVISION: nat := 0x54410007
  const ATAG_CMDLINE: nat := 0x54410009
  const INITRD_OFFSET: nat := 8 * 1024 * 1024
  const SPACE: Byte := 32
  const NEWLINE: Byte := 10

  /** A tag as the kernel sees it: its kind, and the bytes between its header and the next tag. */
  datatype Tag = Tag(kind: nat, payload: seq<Byte>)

  // ---------------------------------------------------------------- walking the list

  /** `for_each_tag`: from a header on to the next until the size is 0; the walk that runs out of memory has
      no result. */
  datatype Walked = Tags(tags: seq<Tag>) | Lost

  function Walk(mem: seq<Byte>, at: nat): Walked
    decreases |mem| - at
  {
    if at + 8 > |mem| then Lost else
      var size := Get32(mem, at);
      if size == 0 then (if Get32(mem, at + 4) == ATAG_NONE then Tags([]) else Lost)
      else if size < 2 || at + 4 * size > |mem| then Lost
      else match Walk(mem, at + 4 * size)
           case Lost => Lost
           case Tags(rest) => Tags([Tag(Get32(mem, at + 4), mem[at + 8..at + 4 * size])] + rest)
  }

  predicate Storable(t: Tag) {
    t.kind < WORD && |t.payload| % 4 == 0 && |t.payload| + 8 < WORD
  }

  /** A tag in memory: its size in words, its kind, its payload. */
  function Stored(t: Tag): (r: seq<Byte>)
    requires Storable(t)
    ensures |r| == 8 + |t.payload|
  {
    Le32((8 + |t.payload|) / 4) + Le32(t.kind) + t.payload
  }

  /** Tags end to end, and the terminator. */
  function Laid(tags: seq<Tag>): seq<Byte>
    requires forall t <- tags :: Storable(t)
  {
    if tags == [] then Le32(0) + Le32(ATAG_NONE) else Stored(tags[0]) + Laid(tags[1..])
  }

  lemma StoredReads(mem: seq<Byte>, at: nat, t: Tag)
    requires Storable(t) && at + 8 + |t.payload| <= |mem| && mem[at..at + 8 + |t.payload|] == Stored(t)
    ensures Get32(mem, at) == (8 + |t.payload|) / 4 && Get32(mem, at + 4) == t.kind
    ensures mem[at + 8..at + 8 + |t.payload|] == t.payload
  {
    hide Get32, Le32;
    var n := 8 + |t.payload|;
    Piece(mem, at, n, 0, 4);
    Piece(mem, at, n, 4, 8);
    Piece(mem, at, n, 8, n);
    GetAt(mem, at, (8 + |t.payload|) / 4);
    GetAt(mem, at + 4, t.kind);
  }

  /** Walking a laid-out list finds its tags, wherever in memory it stands and whatever follows it. */
  lemma {:induction false} WalkLaid(mem: seq<Byte>, at: nat, tags: seq<Tag>)
    requires forall t <- tags :: Storable(t)
    requires at + |Laid(tags)| <= |mem| && mem[at..at + |Laid(tags)|] == Laid(tags)
    ensures Walk(mem, at) == Tags(tags)
    decreases |tags|
  {
    hide Get32, Le32;
    var all := Laid(tags);
    if tags == [] {
      Piece(mem, at, 8, 0, 4);
      Piece(mem, at, 8, 4, 8);
      GetAt(mem, at, 0);
      GetAt(mem, at + 4, ATAG_NONE);
    } else {
      var t := tags[0];
      var n := 8 + |t.payload|;
      Piece(mem, at, |all|, 0, n);
      Piece(mem, at, |all|, n, |all|);
      StoredReads(mem, at, t);
      WalkLaid(mem, at + n, tags[1..]);
      assert 4 * Get32(mem, at) == n;
    }
  }

  /** The tag whose header stands at an address. */
  lemma StoredThere(mem: seq<Byte>, at: nat, size: nat)
    requires 2 <= size && at + 4 * size <= |mem| < WORD && Get32(mem, at) == size
    ensures var t := Tag(Get32(mem, at + 4), mem[at + 8..at + 4 * size]);
            Storable(t) && mem[at..at + 4 * size] == Stored(t)
  {
    hide Get32, Le32;
    PutBack(mem, at);
    PutBack(mem, at + 4);
    Halves(mem, at, 4, 8);
    Halves(mem, at, 8, 4 * size);
  }

  /** The other way round: what a walk finds is laid out there. */
  lemma {:induction false} WalkedIsLaid(mem: seq<Byte>, at: nat, tags: seq<Tag>)
    requires |mem| < WORD && Walk(mem, at) == Tags(tags)
    ensures forall t <- tags :: Storable(t)
    ensures at + |Laid(tags)| <= |mem| && mem[at..at + |Laid(tags)|] == Laid(tags)
    decreases |tags|
  {
    hide Get32, Le32, Stored, Storable;
    var size := Get32(mem, at);
    if size == 0 {
      PutBack(mem, at);
      PutBack(mem, at + 4);
      Halves(mem, at, 4, 8);
    } else {
      WalkedIsLaid(mem, at + 4 * size, tags[1..]);
      assert tags == [tags[0]] + tags[1..];
      StoredThere(mem, at, size);
      Halves(mem, at, 4 * size, 4 * size + |Laid(tags[1..])|);
    }
  }

  lemma Halves(mem: seq<Byte>, at: nat, i: nat, j: nat)
    requires i <= j && at + j <= |mem|
    ensures mem[at..at + j] == mem[at..at + i] + mem[at + i..at + j]
  {
  }

  // ---------------------------------------------------------------- the command line

  /** What the board, the kernel entry and the loaded files contribute.  `debug` is the debug command line
      when the key asking for it is held down. */
  datatype Config = Config(board: seq<Byte>, device: Option<seq<Byte>>, append: Option<seq<Byte>>, rootfs: seq<Byte>,
                           debug: Option<seq<Byte>>, revision: nat, memStart: nat, memSize: nat,
                           initramfs: Option<nat>)

  function Given(o: Option<seq<Byte>>): seq<Byte> {
    match o
    case None => []
    case Some(s) => s
  }

  function Unspaced(s: seq<Byte>): (r: seq<Byte>)
    ensures |r| <= |s|
  {
    if s != [] && s[0] == SPACE then Unspaced(s[1..]) else s
  }

  function Stripped(s: seq<Byte>): (r: seq<Byte>)
    ensures r <= s
  {
    if s != [] && s[|s| - 1] == NEWLINE then Stripped(s[..|s| - 1]) else s
  }

  /** The command line before trailing newlines go, and the text the kernel gets. */
  function Line(c: Config): seq<Byte> {
    Unspaced(c.board) + Given(c.device) + Given(c.append) + c.rootfs
  }

  function Text(c: Config): seq<Byte> {
    Stripped(Line(c)) + Given(c.debug)
  }

  /** The line, piece by piece: the board's options from the first that is no blank, those for the device and those
      of the file, where there are any, and the root file system, end to end. */
  lemma LineIs(c: Config)
    ensures exists k :: 0 <= k <= |c.board| && LineFrom(c, k)
  {
    var k := |c.board| - |Unspaced(c.board)|;
    UnspacedIs(c.board);
    assert LineFrom(c, k);
  }

  predicate LineFrom(c: Config, k: nat) {
    && k <= |c.board| && (forall i :: 0 <= i < k ==> c.board[i] == 32) && (k < |c.board| ==> c.board[k] != 32)
    && var a := |c.board| - k;
       var b := a + if c.device.Some? then |c.device.value| else 0;
       var d := b + if c.append.Some? then |c.append.value| else 0;
       && |Line(c)| == d + |c.rootfs|
       && Line(c)[..a] == c.board[k..]
       && (c.device.Some? ==> Line(c)[a..b] == c.device.value)
       && (c.append.Some? ==> Line(c)[b..d] == c.append.value)
       && Line(c)[d..] == c.rootfs
  }

  lemma {:induction false} UnspacedIs(s: seq<Byte>)
    ensures var k := |s| - |Unspaced(s)|;
            && s[k..] == Unspaced(s) && (forall i :: 0 <= i < k ==> s[i] == 32) && (k < |s| ==> s[k] != 32)
  {
    if s != [] && s[0] == SPACE {
      UnspacedIs(s[1..]);
      var k := |s| - |Unspaced(s)|;
      assert s[k..] == s[1..][k - 1..];
      forall i | 0 <= i < k ensures s[i] == 32 { assert i > 0 ==> s[i] == s[1..][i - 1]; }
    }
  }

  predicate ZeroFree(s: seq<Byte>) {
    0 !in s
  }

  /** C strings and 32-bit words. */
  predicate Proper(c: Config) {
    && ZeroFree(c.board) && ZeroFree(Given(c.device)) && ZeroFree(Given(c.append)) && ZeroFree(c.rootfs)
    && ZeroFree(Given(c.debug))
    && c.revision < WORD && c.memStart + INITRD_OFFSET < WORD && c.memSize < WORD
    && (c.initramfs.Some? ==> c.initramfs.value < WORD)
  }

  /** The fixed tags, in the order and with the words the kernel expects. */
  function Fixed(c: Config): seq<Tag>
    requires Proper(c)
  {
    [Tag(ATAG_CORE, Le32(0) + Le32(0) + Le32(0)),
     Tag(ATAG_REVISION, Le32(c.revision)),
     Tag(ATAG_MEM, Le32(c.memSize) + Le32(c.memStart))] +
    match c.initramfs
    case None => []
    case Some(len) => [Tag(ATAG_INITRD2, Le32(c.memStart + INITRD_OFFSET) + Le32(len))]
  }

  /** A tag of words. */
  predicate TagIs(t: Tag, kind: nat, words: seq<nat>) {
    t.kind == kind && |t.payload| == 4 * |words| &&
    forall i :: 0 <= i < |words| ==> Get32(t.payload, 4 * i) == words[i]
  }

  /** The fixed tags as the kernel's structures read them, word by word: `core` with flags, page size and root
      device; `revision`; `mem` with size and start; `initrd2` with start, eight megabytes into memory, and size. */
  lemma FixedReads(c: Config)
    requires Proper(c)
    ensures |Fixed(c)| == if c.initramfs.Some? then 4 else 3
    ensures TagIs(Fixed(c)[0], 0x54410001, [0, 0, 0])
    ensures TagIs(Fixed(c)[1], 0x54410007, [c.revision])
    ensures TagIs(Fixed(c)[2], 0x54410002, [c.memSize, c.memStart])
    ensures c.initramfs.Some? ==> TagIs(Fixed(c)[3], 0x54420005, [c.memStart + 0x80_0000, c.initramfs.value])
  {
    hide Le32, Get32;
    WordsRead(0, 0, 0);
    WordsRead(c.revision, 0, 0);
    WordsRead(c.memSize, c.memStart, 0);
    if c.initramfs.Some? { WordsRead(c.memStart + INITRD_OFFSET, c.initramfs.value, 0); }
  }

  lemma WordsRead(a: nat, b: nat, c: nat)
    requires a < WORD && b < WORD && c < WORD
    ensures Get32(Le32(a), 0) == a && Get32(Le32(a) + Le32(b), 0) == a && Get32(Le32(a) + Le32(b), 4) == b
    ensures var t := Le32(a) + Le32(b) + Le32(c); Get32(t, 0) == a && Get32(t, 4) == b && Get32(t, 8) == c
  {
    hide Le32, Get32;
    GetLe32(a);
    var two, three := Le32(a) + Le32(b), Le32(a) + Le32(b) + Le32(c);
    assert two[0..4] == Le32(a) && two[4..8] == Le32(b);
    assert three[0..4] == Le32(a) && three[4..8] == Le32(b) && three[8..12] == Le32(c);
    GetAt(two, 0, a);
    GetAt(two, 4, b);
    GetAt(three, 0, a);
    GetAt(three, 4, b);
    GetAt(three, 8, c);
  }

  /** `strcpy`: the string and its terminator, and its length. */
  method Strcpy(mem: array<Byte>, dest: nat, src: seq<Byte>) returns (len: nat)
    requires dest + |src| + 1 <= mem.Length
    modifies mem
    ensures len == |src| && mem[..] == Overwrite(old(mem[..]), dest, src + [0])
  {
    hide Overwrite;
    len := 0;
    ghost var was := mem[..];
    NothingOver(was, dest);
    while len < |src|
      invariant 0 <= len <= |src|
      invariant mem[..] == Overwrite(was, dest, src[..len])
    {
      OneMore(was, dest, src[..len], src[len]);
      assert src[..len] + [src[len]] == src[..len + 1];
      mem[dest + len] := src[len];
      len := len + 1;
    }
    assert src[..len] == src;
    OneMore(was, dest, src, 0);
    mem[dest + len] := 0;
  }

  lemma NonZero(s: seq<Byte>, i: nat)
    requires ZeroFree(s)
    ensures i < |s| ==> s[i] != 0
  {
  }

  method Strlen(mem: array<Byte>, at: nat, ghost text: seq<Byte>) returns (len: nat)
    requires ZeroFree(text) && at + |text| + 1 <= mem.Length && mem[at..at + |text| + 1] == text + [0]
    ensures len == |text|
  {
    len := 0;
    ghost var all := mem[at..at + |text| + 1];
    while mem[at + len] != 0
      invariant 0 <= len <= |text| && mem[at..at + |text| + 1] == all
      decreases |text| - len
    {
      assert all[len] == mem[at + len];
      len := len + 1;
    }
    assert all[len] == mem[at + len];
    NonZero(text, len);
  }

  // ---------------------------------------------------------------- the fixed tags

  /** `tag_next`. */
  method TagNext(mem: array<Byte>, at: nat, ghost t: Tag) returns (next: nat)
    requires Storable(t) && at + |Stored(t)| <= mem.Length && mem[at..at + |Stored(t)|] == Stored(t)
    ensures next == at + |Stored(t)|
  {
    StoredReads(mem[..], at, t);
    next := at + 4 * Get32(mem[..], at);
  }

  /** Sets a tag's kind and then its size, as the source does. */
  method PutHeader(mem: array<Byte>, at: nat, kind: nat, size: nat)
    requires kind < WORD && size < WORD && at + 8 <= mem.Length
    modifies mem
    ensures mem[..] == Overwrite(old(mem[..]), at, Le32(size) + Le32(kind))
  {
    hide Overwrite, Le32;
    Put32(mem, at + 4, kind);
    Put32(mem, at, size);
    Adjoining(old(mem[..]), at, Le32(size), Le32(kind));
  }

  method PutCore(mem: array<Byte>, at: nat) returns (next: nat)
    requires at + 20 <= mem.Length
    modifies mem
    ensures next == at + 20
    ensures mem[..] == Overwrite(old(mem[..]), at, Stored(Tag(ATAG_CORE, Le32(0) + Le32(0) + Le32(0))))
  {
    hide Overwrite, Le32;
    ghost var t := Tag(ATAG_CORE, Le32(0) + Le32(0) + Le32(0));
    PutHeader(mem, at, ATAG_CORE, (8 + 12) / 4);
    Put32(mem, at + 8, 0);
    Put32(mem, at + 12, 0);
    Put32(mem, at + 16, 0);
    ghost var h := Le32(5) + Le32(ATAG_CORE);
    Adjoining(old(mem[..]), at, h, Le32(0));
    Adjoining(old(mem[..]), at, h + Le32(0), Le32(0));
    Adjoining(old(mem[..]), at, h + Le32(0) + Le32(0), Le32(0));
    assert h + Le32(0) + Le32(0) + Le32(0) == Stored(t);
    OverwriteReads(old(mem[..]), at, Stored(t));
    next := TagNext(mem, at, t);
  }

  method PutRevision(mem: array<Byte>, at: nat, revision: nat) returns (next: nat)
    requires at + 12 <= mem.Length && revision < WORD
    modifies mem
    ensures next == at + 12 && mem[..] == Overwrite(old(mem[..]), at, Stored(Tag(ATAG_REVISION, Le32(revision))))
  {
    hide Overwrite, Le32;
    ghost var t := Tag(ATAG_REVISION, Le32(revision));
    PutHeader(mem, at, ATAG_REVISION, (8 + 4) / 4);
    Put32(mem, at + 8, revision);
    Adjoining(old(mem[..]), at, Le32(3) + Le32(ATAG_REVISION), Le32(revision));
    OverwriteReads(old(mem[..]), at, Stored(t));
    next := TagNext(mem, at, t);
  }

  /** The memory tag: its size word stands before its start word, and is written after it. */
  method PutMem(mem: array<Byte>, at: nat, start: nat, size: nat) returns (next: nat)
    requires at + 16 <= mem.Length && start < WORD && size < WORD
    modifies mem
    ensures next == at + 16
    ensures mem[..] == Overwrite(old(mem[..]), at, Stored(Tag(ATAG_MEM, Le32(size) + Le32(start))))
  {
    hide Overwrite, Le32;
    ghost var t := Tag(ATAG_MEM, Le32(size) + Le32(start));
    PutHeader(mem, at, ATAG_MEM, (8 + 8) / 4);
    ghost var h := Le32(4) + Le32(ATAG_MEM);
    ghost var headed := mem[..];
    Put32(mem, at + 12, start);
    Put32(mem, at + 8, size);
    Adjoining(headed, at + 8, Le32(size), Le32(start));
    Adjoining(old(mem[..]), at, h, Le32(size) + Le32(start));
    assert h + (Le32(size) + Le32(start)) == Stored(t);
    OverwriteReads(old(mem[..]), at, Stored(t));
    next := TagNext(mem, at, t);
  }

  method PutInitrd(mem: array<Byte>, at: nat, start: nat, size: nat) returns (next: nat)
    requires at + 16 <= mem.Length && start < WORD && size < WORD
    modifies mem
    ensures next == at + 16
    ensures mem[..] == Overwrite(old(mem[..]), at, Stored(Tag(ATAG_INITRD2, Le32(start) + Le32(size))))
  {
    hide Overwrite, Le32;
    ghost var t := Tag(ATAG_INITRD2, Le32(start) + Le32(size));
    PutHeader(mem, at, ATAG_INITRD2, (8 + 8) / 4);
    ghost var h := Le32(4) + Le32(ATAG_INITRD2);
    Put32(mem, at + 8, start);
    Put32(mem, at + 12, size);
    Adjoining(old(mem[..]), at, h, Le32(start));
    Adjoining(old(mem[..]), at, h + Le32(start), Le32(size));
    assert h + Le32(start) + Le32(size) == Stored(t);
    OverwriteReads(old(mem[..]), at, Stored(t));
    next := TagNext(mem, at, t);
  }

  // ---------------------------------------------------------------- the command line tag

  /** A string copied over the terminator of another. */
  lemma Joined(mem: seq<Byte>, at: nat, a: seq<Byte>, b: seq<Byte>)
    requires at + |a| + |b| + 1 <= |mem|
    ensures Overwrite(Overwrite(mem, at, a + [0]), at + |a|, b + [0]) == Overwrite(mem, at, a + b + [0])
  {
    var m := Overwrite(mem, at, a + [0]);
    assert m[..at + |a|] == mem[..at] + a;
  }

  /** The parts of the command line, one `strcpy` after the other; the result is where they end. */
  method CopyLine(mem: array<Byte>, at: nat, c: Config) returns (cmdline: nat)
    requires at + |Line(c)| + 1 <= mem.Length
    modifies mem
    ensures cmdline == at + |Line(c)| && mem[..] == Overwrite(old(mem[..]), at, Line(c) + [0])
  {
    hide Overwrite;
    var p := c.board;
    while p != [] && p[0] == SPACE
      invariant Unspaced(p) == Unspaced(c.board)
    {
      p := p[1..];
    }
    hide Unspaced;
    cmdline := at;
    var n := Strcpy(mem, cmdline, p);
    cmdline := cmdline + n;
    ghost var line := p;
    if c.device.Some? {
      n := Strcpy(mem, cmdline, c.device.value);
      Joined(old(mem[..]), at, line, c.device.value);
      cmdline, line := cmdline + n, line + c.device.value;
    }
    assert line == p + Given(c.device);
    if c.append.Some? {
      n := Strcpy(mem, cmdline, c.append.value);
      Joined(old(mem[..]), at, line, c.append.value);
      cmdline, line := cmdline + n, line + c.append.value;
    }
    assert line == p + Given(c.device) + Given(c.append);
    if c.rootfs != [] {
      n := Strcpy(mem, cmdline, c.rootfs);
      Joined(old(mem[..]), at, line, c.rootfs);
      cmdline, line := cmdline + n, line + c.rootfs;
    }
    assert line == Line(c);
  }

  /** What stripping leaves: a beginning that does not end in a newline, with only newlines cut off. */
  lemma {:induction false} StrippedIs(s: seq<Byte>)
    ensures Stripped(s) == [] || Stripped(s)[|Stripped(s)| - 1] != NEWLINE
    ensures forall k :: |Stripped(s)| <= k < |s| ==> s[k] == NEWLINE
  {
    if s != [] && s[|s| - 1] == NEWLINE { StrippedIs(s[..|s| - 1]); }
  }

  predicate AllNewlines(s: seq<Byte>) {
    forall b <- s :: b == NEWLINE
  }

  lemma NothingLeft(s: seq<Byte>)
    ensures Stripped(s) == [] <==> AllNewlines(s)
  {
    hide Stripped;
    StrippedIs(s);
    if Stripped(s) == [] {
      forall b <- s ensures b == NEWLINE {
        var k :| 0 <= k < |s| && s[k] == b;
        assert |Stripped(s)| <= k;
      }
    } else {
      assert s[|Stripped(s)| - 1] in s;
    }
  }

  /** Stripping goes on into what stands before exactly if all of `b` is newlines. */
  lemma {:induction false} StrippedJoin(a: seq<Byte>, b: seq<Byte>)
    ensures Stripped(a + b) == if AllNewlines(b) then Stripped(a) else a + Stripped(b)
  {
    if b == [] {
      assert a + b == a;
    } else {
      var init, last := b[..|b| - 1], b[|b| - 1];
      assert b == init + [last] && (a + b)[..|a + b| - 1] == a + init;
      if last == NEWLINE {
        StrippedJoin(a, init);
        assert forall x :: x in b <==> x in init || x == last;
      } else {
        assert last in b;
      }
    }
  }

  /** Where the terminator goes: behind the last byte before `end`, of all memory, that is not a newline. */
  function Cut(mem: seq<Byte>, end: nat): (r: nat)
    requires end <= |mem|
    ensures r <= end
  {
    |Stripped(mem[..end])|
  }

  /** Bytes before the text are reached exactly if the line is nothing but newlines and the byte before it is
      one, too. */
  lemma CutIs(mem: seq<Byte>, at: nat, line: seq<Byte>)
    requires 0 < at && at + |line| <= |mem| && mem[at..at + |line|] == line
    ensures Cut(mem, at + |line|) == if AllNewlines(line) then Cut(mem, at) else at + |Stripped(line)|
    ensures Cut(mem, at + |line|) < at <==> AllNewlines(line) && mem[at - 1] == NEWLINE
  {
    assert mem[..at + |line|] == mem[..at] + line;
    StrippedJoin(mem[..at], line);
    assert mem[..at][at - 1] == mem[at - 1];
  }

  /** From the end of the line back over newlines, and the terminator.  Nothing tells the loop where the text
      begins. */
  method StripLine(mem: array<Byte>, end: nat, ghost at: nat, ghost line: seq<Byte>) returns (cmdline: nat)
    requires 0 < at && end == at + |line| < mem.Length && mem[at..end] == line
    requires !AllNewlines(mem[..at])
    modifies mem
    ensures cmdline == Cut(old(mem[..]), end) && mem[..] == old(mem[..])[cmdline := 0]
    ensures mem[..at] != old(mem[..at]) <==> AllNewlines(line) && old(mem[at - 1]) == NEWLINE
  {
    hide Stripped, AllNewlines;
    ghost var was := mem[..];
    CutIs(was, at, line);
    NothingLeft(was[..at]);
    cmdline := end;
    CutPositive(was, at, end);
    while mem[cmdline - 1] == NEWLINE
      invariant 0 < cmdline <= end && Cut(was, cmdline) == Cut(was, end)
      invariant mem[..] == was
      decreases cmdline
    {
      CutNext(was, cmdline);
      CutPositive(was, at, end);
      cmdline := cmdline - 1;
    }
    CutNext(was, cmdline);
    mem[cmdline] := 0;
    CutIsNewline(was, end);
    assert mem[..at] == (if cmdline < at then was[..at][cmdline := 0] else was[..at]);
  }

  lemma CutNext(mem: seq<Byte>, k: nat)
    requires 0 < k <= |mem|
    ensures Cut(mem, k) == if mem[k - 1] == NEWLINE then Cut(mem, k - 1) else k
  {
    assert mem[..k][..k - 1] == mem[..k - 1] && mem[..k][k - 1] == mem[k - 1];
  }

  lemma CutPositive(mem: seq<Byte>, at: nat, end: nat)
    requires at <= end <= |mem| && Stripped(mem[..at]) != []
    ensures Cut(mem, end) > 0
  {
    assert mem[..end] == mem[..at] + mem[at..end];
    StrippedJoin(mem[..at], mem[at..end]);
  }

  lemma CutIsNewline(mem: seq<Byte>, end: nat)
    requires end <= |mem|
    ensures Cut(mem, end) < end ==> mem[Cut(mem, end)] == NEWLINE
  {
    StrippedIs(mem[..end]);
  }

  lemma RestSame(mem: seq<Byte>, at: nat, bytes: seq<Byte>, end: nat)
    requires at + |bytes| <= end <= |mem|
    ensures Overwrite(mem, at, bytes)[end..] == mem[end..]
  {
  }

  // ---------------------------------------------------------------- the text in memory

  /** Memory after the line has been copied to `at`. */
  function Lined(mem: seq<Byte>, at: nat, c: Config): (r: seq<Byte>)
    requires at + |Line(c)| + 1 <= |mem|
    ensures |r| == |mem|
  {
    Overwrite(mem, at, Line(c) + [0])
  }

  /** Memory after the newlines at its end are cut off and the debug options, if they are asked for, added. */
  function Texted(mem: seq<Byte>, at: nat, c: Config): (r: seq<Byte>)
    requires at + |Line(c)| + |Given(c.debug)| + 1 <= |mem|
    ensures |r| == |mem|
  {
    Overwrite(Lined(mem, at, c), Cut(Lined(mem, at, c), at + |Line(c)|), Given(c.debug) + [0])
  }

  /** The line has something to stop at. */
  predicate Stops(mem: seq<Byte>, at: nat, c: Config)
    requires 0 < at <= |mem|
  {
    !AllNewlines(Line(c)) || mem[at - 1] != NEWLINE
  }

  /** The text for the kernel, whatever the line and whatever stands before it. */
  method PutText(mem: array<Byte>, at: nat, c: Config)
    requires 0 < at && at + |Line(c)| + |Given(c.debug)| + 1 <= mem.Length && !AllNewlines(mem[..at])
    modifies mem
    ensures mem[..] == Texted(old(mem[..]), at, c)
  {
    hide Line, Overwrite, Cut, AllNewlines;
    var end := CopyLine(mem, at, c);
    ghost var line, was, lined := Line(c), old(mem[..]), mem[..];
    OverwriteReads(was, at, line + [0]);
    LineThere(lined, at, line);
    var cmdline := StripLine(mem, end, at, line);
    if c.debug.Some? {
      var n := Strcpy(mem, cmdline, c.debug.value);
      OverZero(lined, cmdline, c.debug.value + [0]);
    } else {
      OverZero(lined, cmdline, [0]);
      assert [] + [0] == [0 as Byte];
      OneByte(lined, cmdline, 0);
    }
  }

  lemma LineThere(mem: seq<Byte>, at: nat, line: seq<Byte>)
    requires at + |line| + 1 <= |mem| && mem[at..at + |line| + 1] == line + [0]
    ensures mem[at..at + |line|] == line
  {
    assert mem[at..at + |line|] == mem[at..at + |line| + 1][..|line|];
  }

  lemma OverZero(mem: seq<Byte>, at: nat, bytes: seq<Byte>)
    requires bytes != [] && at + |bytes| <= |mem|
    ensures Overwrite(mem[at := 0], at, bytes) == Overwrite(mem, at, bytes)
  {
  }

  lemma OneByte(mem: seq<Byte>, at: nat, b: Byte)
    requires at < |mem|
    ensures Overwrite(mem, at, [b]) == mem[at := b]
  {
  }

  /** The C string that starts at an address. */
  function CString(mem: seq<Byte>, at: nat): (r: seq<Byte>)
    requires at <= |mem|
    ensures at + |r| <= |mem| && mem[at..at + |r|] == r && ZeroFree(r)
    ensures at + |r| < |mem| ==> mem[at + |r|] == 0
    decreases |mem| - at
  {
    if at == |mem| || mem[at] == 0 then [] else [mem[at]] + CString(mem, at + 1)
  }

  lemma {:induction false} CStringIs(mem: seq<Byte>, at: nat, text: seq<Byte>)
    requires ZeroFree(text) && at + |text| < |mem| && mem[at..at + |text|] == text && mem[at + |text|] == 0
    ensures CString(mem, at) == text
    decreases |text|
  {
    if text != [] {
      assert text[0] in text && mem[at] == mem[at..at + |text|][0];
      assert mem[at + 1..at + |text|] == mem[at..at + |text|][1..];
      CStringIs(mem, at + 1, text[1..]);
    }
  }

  lemma {:induction false} CStringEnds(mem: seq<Byte>, at: nat, z: nat)
    requires at <= z < |mem| && mem[z] == 0
    ensures at + |CString(mem, at)| <= z
    decreases z - at
  {
    if mem[at] != 0 { CStringEnds(mem, at + 1, z); }
  }

  /** There is always a terminator in the room for the text, and nothing behind that room is touched. */
  lemma TextedEnds(mem: seq<Byte>, at: nat, c: Config)
    requires 0 < at && at + |Line(c)| + |Given(c.debug)| + 1 <= |mem|
    ensures var m := Texted(mem, at, c); var limit := at + |Line(c)| + |Given(c.debug)| + 1;
            at + |CString(m, at)| < limit && m[limit..] == mem[limit..]
  {
    hide Line, Cut, CString;
    var m1, m, d := Lined(mem, at, c), Texted(mem, at, c), Given(c.debug);
    var z, limit := Cut(m1, at + |Line(c)|), at + |Line(c)| + |d| + 1;
    RestSame(mem, at, Line(c) + [0], limit);
    RestSame(m1, z, d + [0], limit);
    if z + |d| >= at {
      assert m[z + |d|] == 0;
      CStringEnds(m, at, z + |d|);
    } else {
      assert m[at + |Line(c)|] == m1[at + |Line(c)|] == 0;
      CStringEnds(m, at, at + |Line(c)|);
    }
  }

  /** Nothing before the text, and nothing before the place of the terminator, is touched. */
  lemma TextedHead(mem: seq<Byte>, at: nat, c: Config, j: nat)
    requires at + |Line(c)| + |Given(c.debug)| + 1 <= |mem|
    requires j <= at && j <= Cut(Lined(mem, at, c), at + |Line(c)|)
    ensures Texted(mem, at, c)[..j] == mem[..j]
  {
    hide Line, Cut;
  }

  /** The cut, in terms of the line. */
  lemma LinedCut(mem: seq<Byte>, at: nat, c: Config)
    requires 0 < at && at + |Line(c)| + 1 <= |mem|
    ensures var z := Cut(Lined(mem, at, c), at + |Line(c)|);
            && (Stops(mem, at, c) ==> z == at + |Stripped(Line(c))|)
            && (!Stops(mem, at, c) ==> z == Cut(mem, at) < at)
  {
    hide Line, Stripped;
    var m1, line := Lined(mem, at, c), Line(c);
    OverwriteReads(mem, at, line + [0]);
    LineThere(m1, at, line);
    CutIs(m1, at, line);
    assert m1[at - 1] == m1[..at][at - 1] == mem[..at][at - 1];
    NothingLeft(line);
    if AllNewlines(line) { CutNext(mem, at); assert Cut(m1, at) == Cut(mem, at); }
  }

  lemma LinedThere(mem: seq<Byte>, at: nat, c: Config)
    requires at + |Line(c)| + 1 <= |mem|
    ensures var m := Lined(mem, at, c);
            m[at..at + |Line(c)| + 1] == Line(c) + [0] && m[at..at + |Line(c)|] == Line(c)
  {
    hide Line;
    OverwriteReads(mem, at, Line(c) + [0]);
    LineThere(Lined(mem, at, c), at, Line(c));
  }

  /** With something to stop at, the kernel gets the line without its trailing newlines, and the debug options. */
  lemma TextedClean(mem: seq<Byte>, at: nat, c: Config)
    requires Proper(c) && 0 < at && at + |Line(c)| + |Given(c.debug)| + 1 <= |mem| && Stops(mem, at, c)
    ensures CString(Texted(mem, at, c), at) == Text(c)
  {
    hide Line, Lined, Overwrite, Cut, Stripped, Proper, ZeroFree, CString, Stops, Given;
    TextZeroFree(c);
    LinedCut(mem, at, c);
    LinedThere(mem, at, c);
    var m1, d, kept := Lined(mem, at, c), Given(c.debug), Stripped(Line(c));
    Prefixed(m1, at, Line(c), kept);
    Added(m1, at, kept, d);
    CStringIs(Overwrite(m1, at + |kept|, d + [0]), at, kept + d);
  }

  lemma Prefixed(mem: seq<Byte>, at: nat, line: seq<Byte>, kept: seq<Byte>)
    requires at + |line| <= |mem| && mem[at..at + |line|] == line && kept <= line
    ensures mem[at..at + |kept|] == kept
  {
    assert mem[at..at + |kept|] == mem[at..at + |line|][..|kept|];
  }

  lemma Added(mem: seq<Byte>, at: nat, kept: seq<Byte>, d: seq<Byte>)
    requires at + |kept| + |d| + 1 <= |mem| && mem[at..at + |kept|] == kept
    ensures var m := Overwrite(mem, at + |kept|, d + [0]);
            m[at..at + |kept| + |d|] == kept + d && m[at + |kept| + |d|] == 0
  {
  }

  /** Bytes written from before an address on. */
  lemma Across(mem: seq<Byte>, z: nat, d: seq<Byte>, at: nat)
    requires z <= at <= z + |d| && z + |d| + 1 <= |mem|
    ensures var m := Overwrite(mem, z, d + [0]); m[at..z + |d|] == d[at - z..] && m[z + |d|] == 0
  {
  }

  /** Bytes written that end before a string. */
  lemma Before(mem: seq<Byte>, z: nat, d: seq<Byte>, at: nat, line: seq<Byte>)
    requires z + |d| < at && at + |line| + 1 <= |mem| && mem[at..at + |line| + 1] == line + [0]
    ensures var m := Overwrite(mem, z, d + [0]); m[at..at + |line|] == line && m[at + |line|] == 0
  {
    var m := Overwrite(mem, z, d + [0]);
    RestSame(mem, z, d + [0], at);
    hide Overwrite;
    assert m[at..at + |line| + 1] == m[at..][..|line| + 1] == mem[at..][..|line| + 1] == mem[at..at + |line| + 1];
    LineThere(m, at, line);
    assert m[at + |line|] == m[at..at + |line| + 1][|line|];
  }

  /** Without, all newlines of the line stay, unless the debug options, written too early, run over them. */
  lemma TextedRunsOver(mem: seq<Byte>, at: nat, c: Config)
    requires Proper(c) && 0 < at && at + |Line(c)| + |Given(c.debug)| + 1 <= |mem| && !Stops(mem, at, c)
    ensures var d, z := Given(c.debug), Cut(mem, at);
            CString(Texted(mem, at, c), at) == if z + |d| < at then Line(c) else d[at - z..]
  {
    hide Line, Lined, Overwrite, Cut, Stripped, Proper, ZeroFree, CString, Stops, Text, Given;
    LinedCut(mem, at, c);
    LinedThere(mem, at, c);
    var m1, d, z := Lined(mem, at, c), Given(c.debug), Cut(mem, at);
    if z + |d| < at {
      Before(m1, z, d, at, Line(c));
      LineZeroFree(c);
      CStringIs(Overwrite(m1, z, d + [0]), at, Line(c));
    } else {
      Across(m1, z, d, at);
      DebugZeroFree(c, at - z);
      CStringIs(Overwrite(m1, z, d + [0]), at, d[at - z..]);
    }
  }

  lemma DebugZeroFree(c: Config, i: nat)
    requires Proper(c) && i <= |Given(c.debug)|
    ensures ZeroFree(Given(c.debug)[i..])
  {
    assert forall b <- Given(c.debug)[i..] :: b in Given(c.debug);
  }

  lemma LineZeroFree(c: Config)
    requires Proper(c)
    ensures ZeroFree(Line(c))
  {
    UnspacedZeroFree(c.board);
  }

  /** A command line that is one newline, behind a byte that happens to be one: the kernel gets the newline. */
  lemma OneNewlineStays(mem: seq<Byte>, at: nat, c: Config)
    requires Proper(c) && Line(c) == [NEWLINE] && c.debug == None && 0 < at && at + 2 <= |mem| && mem[at - 1] == NEWLINE
    ensures CString(Texted(mem, at, c), at) == [NEWLINE] && Text(c) == []
  {
    LinedCut(mem, at, c);
    TextedRunsOver(mem, at, c);
    NothingLeft(Line(c));
  }

  /** Exactly when the kernel gets the text meant for it. */
  lemma TextReachedIff(mem: seq<Byte>, at: nat, c: Config)
    requires Proper(c) && 0 < at && at + |Line(c)| + |Given(c.debug)| + 1 <= |mem|
    ensures CString(Texted(mem, at, c), at) == Text(c) <==>
            Stops(mem, at, c) || (Cut(mem, at) + |Given(c.debug)| < at && Line(c) == Given(c.debug))
  {
    hide Line, Cut, CString, Proper, Texted;
    if Stops(mem, at, c) {
      TextedClean(mem, at, c);
    } else {
      TextedRunsOver(mem, at, c);
      LinedCut(mem, at, c);
      NothingLeft(Line(c));
      assert Text(c) == Given(c.debug);
    }
  }

  /** The command line tag: its words are enough for the text, its terminator and one byte more. */
  function CmdlineTag(text: seq<Byte>, pad: seq<Byte>): Tag {
    Tag(ATAG_CMDLINE, text + [0] + pad)
  }

  /** The kernel reads the text from it. */
  lemma CmdlineReads(text: seq<Byte>, pad: seq<Byte>)
    requires ZeroFree(text)
    ensures CmdlineTag(text, pad).kind == 0x54410009 && CString(CmdlineTag(text, pad).payload, 0) == text
  {
    var p := text + [0] + pad;
    assert p[0..0 + |text|] == text && p[|text|] == 0;
    CStringIs(p, 0, text);
  }

  predicate Pads(text: seq<Byte>, pad: seq<Byte>) {
    1 <= |pad| <= 4 && (|text| + 1 + |pad|) % 4 == 0
  }

  /** The most memory the command line can need after its tag's header. */
  function Room(c: Config): nat {
    |Line(c)| + |Given(c.debug)| + 13
  }

  lemma SizeFits(len: nat)
    ensures var size := (8 + len + 1 + 4) / 4; 8 + len + 2 <= 4 * size <= 8 + len + 5
  {
  }

  lemma TextZeroFree(c: Config)
    requires Proper(c)
    ensures ZeroFree(Text(c))
  {
    UnspacedZeroFree(c.board);
    assert forall b <- Stripped(Line(c)) :: b in Line(c);
  }

  lemma {:induction false} UnspacedZeroFree(s: seq<Byte>)
    requires ZeroFree(s)
    ensures ZeroFree(Unspaced(s))
  {
    if s != [] && s[0] == SPACE { UnspacedZeroFree(s[1..]); }
  }

  /** The header, once the text is in place: its size comes from the text's length. */
  method HeadCmdline(mem: array<Byte>, at: nat, ghost text: seq<Byte>) returns (next: nat, ghost pad: seq<Byte>)
    requires ZeroFree(text) && at + |text| + 13 <= mem.Length < WORD
    requires mem[at + 8..at + 8 + |text| + 1] == text + [0]
    modifies mem
    ensures Pads(text, pad) && Storable(CmdlineTag(text, pad))
    ensures next == at + |Stored(CmdlineTag(text, pad))| <= at + |text| + 13
    ensures mem[at..next] == Stored(CmdlineTag(text, pad))
    ensures mem[..at] == old(mem[..at]) && mem[at + 8..] == old(mem[at + 8..])
  {
    hide Overwrite, Le32, ZeroFree, Stored;
    ghost var texted := mem[..];
    var len := Strlen(mem, at + 8, text);
    SizeFits(len);
    var size := (8 + len + 1 + 4) / 4;
    PutHeader(mem, at, ATAG_CMDLINE, size);
    pad := mem[at + 8 + len + 1..at + 4 * size];
    HeaderAndText(texted, at, size, text);
    RestSame(texted, at, Le32(size) + Le32(ATAG_CMDLINE), at + 8);
    next := TagNext(mem, at, CmdlineTag(text, pad));
  }

  /** What the kernel will read as the command line whose tag begins at `at`. */
  function Reached(mem: seq<Byte>, at: nat, c: Config): seq<Byte>
    requires at + 8 + |Line(c)| + |Given(c.debug)| + 1 <= |mem|
  {
    CString(Texted(mem, at + 8, c), at + 8)
  }

  /** The command line tag. */
  method PutCmdline(mem: array<Byte>, at: nat, c: Config) returns (next: nat, ghost pad: seq<Byte>)
    requires Proper(c) && at + 8 + Room(c) <= mem.Length < WORD && !AllNewlines(mem[..at + 8])
    modifies mem
    ensures var t := CmdlineTag(Reached(old(mem[..]), at, c), pad);
            && Pads(Reached(old(mem[..]), at, c), pad) && Storable(t)
            && next == at + |Stored(t)| <= at + Room(c) && mem[at..next] == Stored(t)
    ensures mem[..at] == Texted(old(mem[..]), at + 8, c)[..at]
    ensures mem[at + 8 + Room(c)..] == old(mem[at + 8 + Room(c)..])
  {
    hide Line, Proper, Stored, CmdlineTag, Pads, Texted, AllNewlines, ZeroFree, Given, Storable, Reached;
    PutText(mem, at + 8, c);
    ReachedThere(old(mem[..]), at, c);
    ghost var texted := mem[..];
    next, pad := HeadCmdline(mem, at, Reached(old(mem[..]), at, c));
    SameTail(texted, mem[..], at + 8, at + 8 + Room(c));
  }

  /** The string is where the kernel looks for it, and there is room behind it. */
  lemma ReachedThere(mem: seq<Byte>, at: nat, c: Config)
    requires at + 8 + Room(c) <= |mem|
    ensures var text, m := Reached(mem, at, c), Texted(mem, at + 8, c);
            && ZeroFree(text) && |text| + 13 <= Room(c)
            && m[at + 8..at + 8 + |text| + 1] == text + [0] && m[at + 8 + Room(c)..] == mem[at + 8 + Room(c)..]
  {
    hide Line, Texted, Given, CString;
    var m := Texted(mem, at + 8, c);
    TextedEnds(mem, at + 8, c);
    SameTail(mem, m, at + 9 + |Line(c)| + |Given(c.debug)|, at + 8 + Room(c));
    StringAndZero(m, at + 8);
  }

  lemma StringAndZero(mem: seq<Byte>, at: nat)
    requires at <= |mem| && at + |CString(mem, at)| < |mem|
    ensures mem[at..at + |CString(mem, at)| + 1] == CString(mem, at) + [0]
  {
    var n := |CString(mem, at)|;
    assert mem[at..at + n + 1] == mem[at..at + n] + [mem[at + n]];
  }

  lemma HeaderAndText(mem: seq<Byte>, at: nat, size: nat, text: seq<Byte>)
    requires at + 9 + |text| < at + 4 * size <= |mem| && size < WORD && 4 * size < WORD
    requires mem[at + 8..at + 9 + |text|] == text + [0]
    ensures var head := Le32(size) + Le32(ATAG_CMDLINE); var m := Overwrite(mem, at, head);
            var t := CmdlineTag(text, m[at + 9 + |text|..at + 4 * size]);
            && Storable(t) && m[at..at + 4 * size] == Stored(t) && m[..at] == mem[..at]
  {
    var head := Le32(size) + Le32(ATAG_CMDLINE);
    var m := Overwrite(mem, at, head);
    hide Le32, Overwrite;
    OverwriteReads(mem, at, head);
    SameStart(m, mem, at + 8, 1 + |text|);
    CutThree(m, at, at + 8, at + 9 + |text|, at + 4 * size);
    var t := CmdlineTag(text, m[at + 9 + |text|..at + 4 * size]);
    assert |t.payload| + 8 == 4 * size;
  }

  lemma SameStart(a: seq<Byte>, b: seq<Byte>, i: nat, n: nat)
    requires i + n <= |a| == |b| && a[i..] == b[i..]
    ensures a[i..i + n] == b[i..i + n]
  {
    assert a[i..i + n] == a[i..][..n] && b[i..i + n] == b[i..][..n];
  }

  lemma CutThree(m: seq<Byte>, i: nat, j: nat, k: nat, l: nat)
    requires i <= j <= k <= l <= |m|
    ensures m[i..l] == m[i..j] + (m[j..k] + m[k..l])
  {
  }

  // ---------------------------------------------------------------- the list

  function FixedSize(c: Config): nat {
    if c.initramfs.None? then 48 else 64
  }

  /** The fixed tags end to end. */
  function FixedBytes(c: Config): (r: seq<Byte>)
    requires Proper(c)
    ensures |r| == FixedSize(c)
  {
    Stored(Tag(ATAG_CORE, Le32(0) + Le32(0) + Le32(0))) +
    Stored(Tag(ATAG_REVISION, Le32(c.revision))) +
    Stored(Tag(ATAG_MEM, Le32(c.memSize) + Le32(c.memStart))) +
    match c.initramfs
    case None => []
    case Some(len) => Stored(Tag(ATAG_INITRD2, Le32(c.memStart + INITRD_OFFSET) + Le32(len)))
  }

  lemma LaidFirst(t: Tag, rest: seq<Tag>)
    requires Storable(t) && forall u <- rest :: Storable(u)
    ensures Laid([t] + rest) == Stored(t) + Laid(rest)
  {
    assert ([t] + rest)[1..] == rest;
  }

  lemma FixedStorable(c: Config)
    requires Proper(c)
    ensures forall t <- Fixed(c) :: Storable(t)
  {
  }

  /** The fixed tags, one more and the terminator, end to end. */
  lemma ListLaid(c: Config, t: Tag)
    requires Proper(c) && Storable(t)
    ensures forall u <- Fixed(c) + [t] :: Storable(u)
    ensures Laid(Fixed(c) + [t]) == FixedBytes(c) + Stored(t) + Le32(0) + Le32(ATAG_NONE)
  {
    FixedStorable(c);
    hide Stored, Le32, Laid, Storable;
    LaidNone();
    LaidFirst(t, []);
    assert [t] + [] == [t];
    var core, revision, mem := Fixed(c)[0], Fixed(c)[1], Fixed(c)[2];
    if c.initramfs.Some? {
      var initrd := Fixed(c)[3];
      assert Fixed(c) + [t] == [core, revision, mem] + ([initrd] + [t]);
      LaidFirst(initrd, [t]);
      LaidThree(core, revision, mem, [initrd] + [t]);
      hide Fixed;
      Regrouped(Stored(core) + Stored(revision) + Stored(mem), Stored(initrd), Stored(t), Le32(0) + Le32(ATAG_NONE));
    } else {
      assert Fixed(c) + [t] == [core, revision, mem] + [t];
      LaidThree(core, revision, mem, [t]);
    }
    Regrouped(FixedBytes(c), Stored(t), Le32(0), Le32(ATAG_NONE));
  }

  lemma Regrouped(a: seq<Byte>, b: seq<Byte>, c: seq<Byte>, d: seq<Byte>)
    ensures a + (b + (c + d)) == a + b + c + d
    ensures a + b + (c + d) == a + b + c + d
  {
  }

  lemma LaidThree(x: Tag, y: Tag, z: Tag, rest: seq<Tag>)
    requires Storable(x) && Storable(y) && Storable(z) && forall u <- rest :: Storable(u)
    ensures Laid([x, y, z] + rest) == Stored(x) + Stored(y) + Stored(z) + Laid(rest)
  {
    hide Stored, Storable, Laid;
    LaidFirst(z, rest);
    LaidFirst(y, [z] + rest);
    LaidFirst(x, [y] + ([z] + rest));
    assert [x, y, z] + rest == [x] + ([y] + ([z] + rest));
  }

  lemma LaidNone()
    ensures Laid([]) == Le32(0) + Le32(ATAG_NONE)
  {
  }

  method PutFixed(mem: array<Byte>, at: nat, c: Config) returns (next: nat)
    requires Proper(c) && at + FixedSize(c) <= mem.Length
    modifies mem
    ensures next == at + FixedSize(c) && mem[..] == Overwrite(old(mem[..]), at, FixedBytes(c))
  {
    hide Overwrite, Stored, Le32;
    ghost var m := mem[..];
    ghost var core, revision, memory := Stored(Tag(ATAG_CORE, Le32(0) + Le32(0) + Le32(0))),
      Stored(Tag(ATAG_REVISION, Le32(c.revision))), Stored(Tag(ATAG_MEM, Le32(c.memSize) + Le32(c.memStart)));
    next := PutCore(mem, at);
    next := PutRevision(mem, next, c.revision);
    Adjoining(m, at, core, revision);
    next := PutMem(mem, next, c.memStart, c.memSize);
    Adjoining(m, at, core + revision, memory);
    if c.initramfs.Some? {
      next := PutInitrd(mem, next, c.memStart + INITRD_OFFSET, c.initramfs.value);
      Adjoining(m, at, core + revision + memory,
                Stored(Tag(ATAG_INITRD2, Le32(c.memStart + INITRD_OFFSET) + Le32(c.initramfs.value))));
    } else {
      assert core + revision + memory + [] == core + revision + memory;
    }
  }

  /** The command line tag and the terminator. */
  method PutTail(mem: array<Byte>, at: nat, c: Config) returns (ghost pad: seq<Byte>)
    requires Proper(c) && at + 8 + Room(c) <= mem.Length < WORD && !AllNewlines(mem[..at + 8])
    modifies mem
    ensures Pads(Reached(old(mem[..]), at, c), pad) && Storable(CmdlineTag(Reached(old(mem[..]), at, c), pad))
    ensures mem[..at] == Texted(old(mem[..]), at + 8, c)[..at]
    ensures mem[at + 8 + Room(c)..] == old(mem[at + 8 + Room(c)..])
    ensures var tail := Stored(CmdlineTag(Reached(old(mem[..]), at, c), pad)) + (Le32(0) + Le32(ATAG_NONE));
            |tail| <= 8 + Room(c) && mem[at..at + |tail|] == tail
  {
    hide Line, Stored, Le32, CmdlineTag, Pads, Proper, Storable, Overwrite, Texted, Reached, AllNewlines;
    ghost var was, end := mem[..], at + 8 + Room(c);
    var params;
    params, pad := PutCmdline(mem, at, c);
    ghost var text := mem[..];
    PutHeader(mem, params, ATAG_NONE, 0);
    ghost var last := Le32(0) + Le32(ATAG_NONE);
    OverwriteReads(text, params, last);
    RestSame(text, params, last, end);
    TwoParts(mem[..], text, at, Stored(CmdlineTag(Reached(was, at, c), pad)), last);
  }

  /** Memory once the fixed tags are written. */
  function Begun(mem: seq<Byte>, at: nat, c: Config): (r: seq<Byte>)
    requires Proper(c) && at + FixedSize(c) <= |mem|
    ensures |r| == |mem|
  {
    Overwrite(mem, at, FixedBytes(c))
  }

  /** The fixed tags begin with a byte that is no newline, so the cut never leaves the list. */
  lemma BegunStops(mem: seq<Byte>, at: nat, c: Config)
    requires Proper(c) && at + FixedSize(c) + 8 <= |mem|
    ensures Begun(mem, at, c)[at] != NEWLINE
    ensures !AllNewlines(Begun(mem, at, c)[..at + FixedSize(c) + 8])
  {
    var m := Begun(mem, at, c);
    var core := Tag(ATAG_CORE, Le32(0) + Le32(0) + Le32(0));
    assert FixedBytes(c)[0] == Stored(core)[0] == Le32(5)[0] == 5;
    assert m[at] == FixedBytes(c)[0];
    assert m[at] == m[..at + FixedSize(c) + 8][at] && m[at] in m[..at + FixedSize(c) + 8];
  }

  /** Where the cut for trailing newlines ends, once the fixed tags stand before `p`. */
  function CutAt(begun: seq<Byte>, p: nat, c: Config): nat
    requires p + 8 + |Line(c)| + 1 <= |begun|
  {
    Cut(Lined(begun, p + 8, c), p + 8 + |Line(c)|)
  }

  /** The fixed tags before `p` survive: the cut stops behind them, or what is written over the newlines it takes
      away is just as many newlines, from the debug options. */
  predicate Kept(z: nat, p: nat, debug: seq<Byte>) {
    z >= p || (p - z <= |debug| && AllNewlines(debug[..p - z]))
  }

  /** `do_params`, for any configuration and any memory.  If and only if the fixed tags are kept, a walk of what it
      leaves in memory visits exactly the core, revision and memory tags, the initial ramdisk tag if there is one,
      and one more, which is the command line tag, and then stops.  The command line is the whole text whenever the
      line, or else the byte before it, gives the cut something to stop at.  Nothing before the list or beyond the
      room it needs is touched. */
  method DoParams(mem: array<Byte>, at: nat, c: Config) returns (ghost pad: seq<Byte>)
    requires Proper(c) && at + FixedSize(c) + 8 + Room(c) <= mem.Length < WORD
    modifies mem
    ensures var begun, p := Begun(old(mem[..]), at, c), at + FixedSize(c);
            && Pads(Reached(begun, p, c), pad)
            && (Kept(CutAt(begun, p, c), p, Given(c.debug)) ==>
                  Walk(mem[..], at) == Tags(Fixed(c) + [CmdlineTag(Reached(begun, p, c), pad)]))
            && (!Kept(CutAt(begun, p, c), p, Given(c.debug)) ==>
                  forall t :: Walk(mem[..], at) != Tags(Fixed(c) + [t]))
            && (Stops(old(mem[..]), p + 8, c) ==>
                  Reached(begun, p, c) == Text(c) && CutAt(begun, p, c) >= p + 8)
            && mem[..p] == Texted(begun, p + 8, c)[..p]
    ensures mem[..at] == old(mem[..at])
    ensures var end := at + FixedSize(c) + 8 + Room(c); mem[end..] == old(mem[end..])
  {
    hide Line, Text, Stored, Le32, Walk, FixedBytes, Fixed, Laid, CmdlineTag, Pads, Proper, Storable, Overwrite,
         Texted, CutAt, Kept, AllNewlines, CString, Lined, Given, ZeroFree, Stripped;
    ghost var was, end := mem[..], at + FixedSize(c) + 8 + Room(c);
    BegunStops(was, at, c);
    var params := PutFixed(mem, at, c);
    ghost var begun := mem[..];
    OverwriteReads(was, at, FixedBytes(c));
    RestSame(was, at, FixedBytes(c), end);
    RestSame(was, at, FixedBytes(c), params);
    assert begun[params + 7] == begun[params..][7] == was[params..][7];
    StoppedCut(begun, params, c);
    if Stops(was, params + 8, c) { TextedClean(begun, params + 8, c); }
    pad := PutTail(mem, params, c);
    BeforeList(mem[..], begun, at, params, c);
    if Kept(CutAt(begun, params, c), params, Given(c.debug)) {
      KeptHead(begun, params, c);
      ListWalks(mem[..], begun, at, c, CmdlineTag(Reached(begun, params, c), pad));
    } else {
      DamagedHead(mem[..], begun, at, c);
    }
  }

  lemma StoppedCut(begun: seq<Byte>, p: nat, c: Config)
    requires p + 8 + |Line(c)| + 1 <= |begun|
    ensures Stops(begun, p + 8, c) ==> CutAt(begun, p, c) >= p + 8
  {
    hide Line, Lined;
    LinedCut(begun, p + 8, c);
  }

  /** The cut stops at any byte that is no newline. */
  lemma CutAfter(begun: seq<Byte>, p: nat, c: Config, k: nat)
    requires p + 8 + |Line(c)| + 1 <= |begun| && k < p + 8 && begun[k] != NEWLINE
    ensures k < CutAt(begun, p, c)
  {
    hide Line, Stripped;
    var m := Lined(begun, p + 8, c);
    StrippedIs(m[..p + 8 + |Line(c)|]);
    assert m[k] == m[..p + 8][k] == begun[k];
  }

  /** What the terminator or the debug options, written too early, make of a byte of the fixed tags. */
  lemma Overran(begun: seq<Byte>, p: nat, c: Config, k: nat)
    requires p + 8 + Room(c) <= |begun| && CutAt(begun, p, c) <= k < p
    ensures begun[k] == NEWLINE
    ensures var i, d := k - CutAt(begun, p, c), Given(c.debug);
            Texted(begun, p + 8, c)[k] == if i < |d| then d[i] else if i == |d| then 0 else NEWLINE
  {
    hide Line, Cut, Given;
    if begun[k] != NEWLINE { CutAfter(begun, p, c, k); }
  }

  /** Nothing before the list is reached, since the list begins with a byte that is no newline. */
  lemma BeforeList(mem: seq<Byte>, begun: seq<Byte>, at: nat, p: nat, c: Config)
    requires at < p && p + 8 + Room(c) <= |begun| == |mem| && begun[at] != NEWLINE
    requires mem[..p] == Texted(begun, p + 8, c)[..p]
    ensures mem[..at] == begun[..at] && CutAt(begun, p, c) > at
  {
    hide Line, Texted;
    CutAfter(begun, p, c, at);
    TextedHead(begun, p + 8, c, at);
    assert mem[..at] == mem[..p][..at] && Texted(begun, p + 8, c)[..at] == Texted(begun, p + 8, c)[..p][..at];
  }

  lemma KeptHead(begun: seq<Byte>, p: nat, c: Config)
    requires p + 8 + Room(c) <= |begun| && Kept(CutAt(begun, p, c), p, Given(c.debug))
    ensures Texted(begun, p + 8, c)[..p] == begun[..p]
  {
    hide Line, Texted, Cut, Given, Lined;
    var z, d := CutAt(begun, p, c), Given(c.debug);
    TextedHead(begun, p + 8, c, if z < p then z else p);
    forall k | z <= k < p ensures Texted(begun, p + 8, c)[k] == begun[k] {
      Overran(begun, p, c, k);
      assert d[k - z] == d[..p - z][k - z] && d[k - z] in d[..p - z];
    }
    var a, b := Texted(begun, p + 8, c), begun;
    forall k | 0 <= k < p && k < z ensures a[k] == b[k] {
      assert a[..if z < p then z else p][k] == b[..if z < p then z else p][k];
    }
  }

  /** Otherwise some byte of the fixed tags is no longer the newline it was. */
  lemma NotKept(begun: seq<Byte>, p: nat, c: Config) returns (k: nat)
    requires p + 8 + Room(c) <= |begun| && !Kept(CutAt(begun, p, c), p, Given(c.debug))
    ensures CutAt(begun, p, c) <= k < p && Texted(begun, p + 8, c)[k] != begun[k]
  {
    hide Line, Texted, Cut, Given, Lined, CutAt;
    var z, d := CutAt(begun, p, c), Given(c.debug);
    if |d| < p - z {
      k := z + |d|;
    } else {
      var i :| 0 <= i < p - z && d[..p - z][i] != NEWLINE;
      k := z + i;
    }
    Overran(begun, p, c, k);
  }

  /** With the fixed tags damaged no walk finds them. */
  lemma DamagedHead(mem: seq<Byte>, begun: seq<Byte>, at: nat, c: Config)
    requires Proper(c) && at + FixedSize(c) + 8 + Room(c) <= |begun| == |mem| < WORD
    requires var p := at + FixedSize(c);
             && mem[..p] == Texted(begun, p + 8, c)[..p] && begun[at..p] == FixedBytes(c)
             && at < CutAt(begun, p, c) && !Kept(CutAt(begun, p, c), p, Given(c.debug))
    ensures forall t :: Walk(mem, at) != Tags(Fixed(c) + [t])
  {
    hide Line, Texted, CutAt, Kept, Given, Walk, Fixed, FixedBytes, Stored, Laid, Proper, Storable, Le32;
    var p := at + FixedSize(c);
    var k := NotKept(begun, p, c);
    assert mem[k] == mem[..p][k] == Texted(begun, p + 8, c)[k];
    OtherByte(mem, begun, at, p, k);
    forall t ensures Walk(mem, at) != Tags(Fixed(c) + [t]) {
      if Walk(mem, at) == Tags(Fixed(c) + [t]) {
        WalkedIsLaid(mem, at, Fixed(c) + [t]);
        assert t in Fixed(c) + [t];
        ListLaid(c, t);
        Regrouped(FixedBytes(c), Stored(t), Le32(0), Le32(ATAG_NONE));
        FirstBytes(mem, at, FixedBytes(c), Stored(t) + (Le32(0) + Le32(ATAG_NONE)));
        assert false;
      }
    }
  }

  lemma OtherByte(a: seq<Byte>, b: seq<Byte>, i: nat, j: nat, k: nat)
    requires i <= k < j <= |a| == |b| && a[k] != b[k]
    ensures a[i..j] != b[i..j]
  {
    assert a[i..j][k - i] == a[k] && b[i..j][k - i] == b[k];
  }

  lemma FirstBytes(mem: seq<Byte>, at: nat, x: seq<Byte>, y: seq<Byte>)
    requires at + |x| + |y| <= |mem| && mem[at..at + |x| + |y|] == x + y
    ensures mem[at..at + |x|] == x
  {
    assert mem[at..at + |x|] == mem[at..at + |x| + |y|][..|x|];
  }

  lemma {:induction false} CutBack(mem: seq<Byte>, k: nat, end: nat)
    requires k <= end <= |mem| && forall i :: k <= i < end ==> mem[i] == NEWLINE
    ensures Cut(mem, end) == Cut(mem, k)
  {
    if k < end {
      CutNext(mem, end);
      CutBack(mem, k, end - 1);
    }
  }

  /** A command line of one newline, no ramdisk and no debug options, and memory from 0x0a000000 on. */
  const NEWLINE_ONLY: Config := Config([NEWLINE], None, None, [], None, 0, 0x0a00_0000, 0, None)

  lemma NewlineOnly()
    ensures var c := NEWLINE_ONLY;
            && Proper(c) && Line(c) == [NEWLINE] && Given(c.debug) == [] && FixedSize(c) == 48
            && FixedBytes(c)[47] == NEWLINE && FixedBytes(c)[46] == 0
  {
    assert Le32(0x0a00_0000) == [0, 0, 0, 10];
  }

  /** Where eight newlines happen to stand before that line, the cut goes on into the memory tag, whose last byte is
      another, and the fixed tags are not kept. */
  lemma MemoryTagDamaged(mem: seq<Byte>, at: nat)
    requires at + 56 + Room(NEWLINE_ONLY) <= |mem|
    requires forall k :: at + 48 <= k < at + 56 ==> mem[k] == NEWLINE
    ensures var c, p := NEWLINE_ONLY, at + 48;
            && Proper(c) && FixedSize(c) == 48 && CutAt(Begun(mem, at, c), p, c) == p - 1
            && !Kept(CutAt(Begun(mem, at, c), p, c), p, Given(c.debug))
  {
    NewlineOnly();
    hide Proper, FixedBytes, Line, Given, FixedSize, Stripped, Lined;
    var c, p := NEWLINE_ONLY, at + 48;
    hide NEWLINE_ONLY;
    var begun := Begun(mem, at, c);
    assert begun[p - 1] == FixedBytes(c)[47] && begun[p - 2] == FixedBytes(c)[46];
    assert forall k :: p <= k < p + 8 ==> begun[k] == mem[k];
    CutAfter(begun, p, c, p - 2);
    hide Begun, Overwrite;
    LinedCut(begun, p + 8, c);
    CutBack(begun, p - 1, p + 8);
    NotStopped(begun, p + 8, c);
  }

  lemma NotStopped(mem: seq<Byte>, at: nat, c: Config)
    requires 0 < at <= |mem| && mem[at - 1] == NEWLINE && Line(c) == [NEWLINE]
    ensures !Stops(mem, at, c)
  {
  }

  /** Fixed tags left alone, the command line tag and the terminator behind them: what the walk finds. */
  lemma ListWalks(mem: seq<Byte>, begun: seq<Byte>, at: nat, c: Config, t: Tag)
    requires Proper(c) && Storable(t) && |mem| == |begun|
    requires var tail := Stored(t) + (Le32(0) + Le32(ATAG_NONE)); var p := at + FixedSize(c);
             && p + |tail| <= |mem| && begun[at..p] == FixedBytes(c) && mem[..p] == begun[..p]
             && mem[p..p + |tail|] == tail
    ensures Walk(mem, at) == Tags(Fixed(c) + [t]) && mem[..at] == begun[..at]
  {
    hide Stored, Le32, Walk, FixedBytes, Fixed, Laid, Proper, Storable;
    TwoParts(mem, begun, at, FixedBytes(c), Stored(t) + (Le32(0) + Le32(ATAG_NONE)));
    ListLaid(c, t);
    Regrouped(FixedBytes(c), Stored(t), Le32(0), Le32(ATAG_NONE));
    WalkLaid(mem, at, Fixed(c) + [t]);
  }

  /** Two pieces, the second written after the first without touching it. */
  lemma TwoParts(b: seq<Byte>, a: seq<Byte>, at: nat, x: seq<Byte>, y: seq<Byte>)
    requires |a| == |b| && at + |x| + |y| <= |a| && a[at..at + |x|] == x
    requires b[..at + |x|] == a[..at + |x|] && b[at + |x|..at + |x| + |y|] == y
    ensures b[at..at + |x| + |y|] == x + y && b[..at] == a[..at]
  {
    assert b[at..at + |x|] == b[..at + |x|][at..];
    assert a[at..at + |x|] == a[..at + |x|][at..];
    assert b[..at] == b[..at + |x|][..at];
  }
}
