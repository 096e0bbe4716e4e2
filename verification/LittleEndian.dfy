/** 32-bit words in byte memory, lowest byte first. */
module LittleEndian {

  type Byte = x: int | 0 <= x < 256

  const WORD: nat := 0x1_0000_0000

  /** The four bytes of a word. */
  function Le32(v: nat): (r: seq<Byte>)
    requires v < WORD
    ensures |r| == 4
  {
    var a, b, c := v / 0x100, v / 0x100 / 0x100, v / 0x100 / 0x100 / 0x100;
    [v % 0x100, a % 0x100, b % 0x100, c]
  }

  /** The word at a byte address. */
  function Get32(mem: seq<Byte>, at: nat): (r: nat)
    requires at + 4 <= |mem|
    ensures r < WORD
  {
    var a: int, b: int, c: int, d: int := mem[at], mem[at + 1], mem[at + 2], mem[at + 3];
    a + 0x100 * b + 0x1_0000 * c + 0x100_0000 * d
  }

  /** A piece of a piece. */
  lemma Piece(mem: seq<Byte>, at: nat, n: nat, i: nat, j: nat)
    requires at + n <= |mem| && i <= j <= n
    ensures mem[at..at + n][i..j] == mem[at + i..at + j]
  {
    var a, b := mem[at..at + n][i..j], mem[at + i..at + j];
    forall k | 0 <= k < j - i ensures a[k] == b[k] {
      assert a[k] == mem[at..at + n][i + k];
    }
  }

  /** Memory with some bytes written over it. */
  function Overwrite(mem: seq<Byte>, at: nat, bytes: seq<Byte>): (r: seq<Byte>)
    requires at + |bytes| <= |mem|
    ensures |r| == |mem|
  {
    mem[..at] + bytes + mem[at + |bytes|..]
  }

  /** Two adjoining pieces, whichever is written first. */
  lemma Adjoining(mem: seq<Byte>, at: nat, a: seq<Byte>, b: seq<Byte>)
    requires at + |a| + |b| <= |mem|
    ensures Overwrite(Overwrite(mem, at, a), at + |a|, b) == Overwrite(mem, at, a + b)
    ensures Overwrite(Overwrite(mem, at + |a|, b), at, a) == Overwrite(mem, at, a + b)
  {
  }

  lemma GetLe32(v: nat)
    requires v < WORD
    ensures Get32(Le32(v), 0) == v
  {
  }

  /** The first byte is the lowest. */
  lemma LowestFirst(a: Byte, b: Byte, c: Byte, d: Byte)
    ensures Le32(a + 0x100 * b + 0x1_0000 * c + 0x100_0000 * d) == [a, b, c, d]
  {
    LowByte(a, b + 0x100 * c + 0x1_0000 * d);
    LowByte(b, c + 0x100 * d);
    LowByte(c, d);
  }

  /** A word read from anywhere its bytes stand. */
  lemma GetAt(mem: seq<Byte>, at: nat, v: nat)
    requires v < WORD && at + 4 <= |mem| && mem[at..at + 4] == Le32(v)
    ensures Get32(mem, at) == v
  {
    hide Le32;
    var w := mem[at..at + 4];
    assert w[0] == mem[at] && w[1] == mem[at + 1] && w[2] == mem[at + 2] && w[3] == mem[at + 3];
    GetLe32(v);
  }

  /** The bytes a word was read from are the word's. */
  lemma PutBack(mem: seq<Byte>, at: nat)
    requires at + 4 <= |mem|
    ensures mem[at..at + 4] == Le32(Get32(mem, at))
  {
    var a: int, b: int, c: int, d: int := mem[at], mem[at + 1], mem[at + 2], mem[at + 3];
    LowByte(a, b + 0x100 * c + 0x1_0000 * d);
    LowByte(b, c + 0x100 * d);
    LowByte(c, d);
  }

  lemma LowByte(b: Byte, rest: nat)
    ensures (b + 0x100 * rest) % 0x100 == b && (b + 0x100 * rest) / 0x100 == rest
  {
  }

  lemma OneMore(mem: seq<Byte>, at: nat, bytes: seq<Byte>, b: Byte)
    requires at + |bytes| < |mem|
    ensures Overwrite(mem, at, bytes)[at + |bytes| := b] == Overwrite(mem, at, bytes + [b])
  {
  }

  lemma NothingOver(mem: seq<Byte>, at: nat)
    requires at <= |mem|
    ensures Overwrite(mem, at, []) == mem
  {
  }

  lemma OverwriteReads(mem: seq<Byte>, at: nat, bytes: seq<Byte>)
    requires at + |bytes| <= |mem|
    ensures Overwrite(mem, at, bytes)[at..at + |bytes|] == bytes
    ensures Overwrite(mem, at, bytes)[..at] == mem[..at]
    ensures Overwrite(mem, at, bytes)[at + |bytes|..] == mem[at + |bytes|..]
  {
  }

  /** Stores a word and touches nothing else. */
  method Put32(mem: array<Byte>, at: nat, v: nat)
    requires v < WORD && at + 4 <= mem.Length
    modifies mem
    ensures mem[..] == Overwrite(old(mem[..]), at, Le32(v))
  {
    mem[at], mem[at + 1] := v % 0x100, v / 0x100 % 0x100;
    mem[at + 2], mem[at + 3] := v / 0x100 / 0x100 % 0x100, v / 0x100 / 0x100 / 0x100;
  }
}
