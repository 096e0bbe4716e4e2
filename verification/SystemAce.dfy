/** Reading sectors through the SystemACE CompactFlash controller (u-boot/common/cmd_ace.c), over a model of
    the controller's registers. */
module SystemAce {

  import opened BitVectors
  import opened Sequences

  const LOCK: bv16 := 0x0002
  const CFG_RESET: bv16 := 0x0080
  const LOCK_POLLS: nat := 12
  const READY_POLLS: nat := 2002

  // ---------------------------------------------------------------- bits of the registers

  function Set(control: bv16, bit: bv16): bv16 {
    control | bit
  }

  function Cleared(control: bv16, bit: bv16): bv16 {
    control & !bit
  }

  predicate Has(word: bv16, bit: bv16) {
    word & bit != 0
  }

  /** The bits of the control register: the lock request is bit 1, the configuration reset bit 7, and the others are
      left alone. */
  lemma ControlBits(c: bv16)
    ensures Set(c, LOCK) == c | 0x0002 && Set(c, CFG_RESET) == c | 0x0080
    ensures Cleared(c, LOCK) == c & 0xfffd && Cleared(c, CFG_RESET) == c & 0xff7f
  {
    hide Set, Cleared;
    BitsSet(c);
    LockBitCleared(c);
    ResetBitCleared(c);
  }

  lemma BitsSet(c: bv16)
    ensures Set(c, LOCK) == c | 0x0002 && Set(c, CFG_RESET) == c | 0x0080
  {
  }

  lemma LockBitCleared(c: bv16)
    ensures Cleared(c, LOCK) == c & 0xfffd
  {
  }

  lemma ResetBitCleared(c: bv16)
    ensures Cleared(c, CFG_RESET) == c & 0xff7f
  {
  }

  lemma ControlTests(c: bv16)
    ensures (Has(c, LOCK) <==> c & 0x0002 == 0x0002) && (Has(c, CFG_RESET) <==> c & 0x0080 == 0x0080)
  {
  }

  lemma LockSet(c: bv16)
    ensures Has(Set(c, LOCK), LOCK) && (Has(Set(c, LOCK), CFG_RESET) <==> Has(c, CFG_RESET))
  {
  }

  lemma LockCleared(c: bv16)
    ensures !Has(Cleared(c, LOCK), LOCK) && (Has(Cleared(c, LOCK), CFG_RESET) <==> Has(c, CFG_RESET))
  {
  }

  lemma ResetSet(c: bv16)
    ensures Has(Set(c, CFG_RESET), CFG_RESET) && (Has(Set(c, CFG_RESET), LOCK) <==> Has(c, LOCK))
  {
  }

  lemma ResetCleared(c: bv16)
    ensures !Has(Cleared(c, CFG_RESET), CFG_RESET) && (Has(Cleared(c, CFG_RESET), LOCK) <==> Has(c, LOCK))
  {
  }

  function Status(locked: bool, present: bool, full: bool, ready: bool): (s: bv16)
    ensures (Has(s, 0x0002) <==> locked) && (Has(s, 0x0010) <==> present)
    ensures (Has(s, 0x0020) <==> full) && (Has(s, 0x0100) <==> ready)
  {
    (if locked then 0x0002 else 0) | (if present then 0x0010 else 0) |
    (if full then 0x0020 else 0) | (if ready then 0x0100 else 0)
  }

  /** Two bytes of the card as the 16-bit data register delivers them. */
  function Paired(low: Byte, high: Byte): (w: bv16)
    ensures Low(w) == low && High(w) == high
  {
    (low as bv16) | ((high as bv16) << 8)
  }

  /** Low byte first. */
  lemma LowByteFirst(low: Byte, high: Byte)
    ensures Paired(low, high) & 0xff == low as bv16 && Paired(low, high) >> 8 == high as bv16
  {
  }

  function Low(w: bv16): Byte {
    (w & 0xff) as Byte
  }

  function High(w: bv16): Byte {
    ((w >> 8) & 0xff) as Byte
  }

  // ---------------------------------------------------------------- the controller

  /** The controller.  What it reports at its `t`-th status poll, and how many polls it takes to fill its
      32-byte sector buffer, is arbitrary; it always fills it in the end.  Commands are obeyed only while the
      lock is held; the buffer is filled only while the configuration controller is held in reset. */
  class Ace {
    const disk: nat -> Byte
    const granted: nat -> bool
    const present: nat -> bool
    const ready: nat -> bool
    const delay: nat -> nat
    var control: bv16
    var clock: nat
    var locked: bool
    var lbaLow: nat
    var lbaHigh: nat
    var at: nat        // next byte of the card to be delivered
    var owed: nat      // sector buffers still to come
    var words: nat     // words left in the sector buffer
    var wait: nat      // polls before the buffer is full

    constructor (disk: nat -> Byte, granted: nat -> bool, present: nat -> bool, ready: nat -> bool, delay: nat -> nat)
    {
      this.disk, this.granted, this.present, this.ready, this.delay := disk, granted, present, ready, delay;
      control, clock, locked, lbaLow, lbaHigh, at, owed, words, wait := 0, 0, false, 0, 0, 0, 0, 0, 0;
    }

    method ReadControl() returns (v: bv16)
      ensures v == control
    {
      v := control;
    }

    method WriteControl(v: bv16)
      modifies this`control, this`locked
      ensures control == v && locked == (old(locked) && Has(v, LOCK))
    {
      control, locked := v, locked && Has(v, LOCK);
    }

    method ReadStatus() returns (s: bv16)
      modifies this`clock, this`locked, this`words, this`wait
      ensures s == Status(locked, present(old(clock)), words > 0, ready(old(clock))) && clock == old(clock) + 1
      ensures locked == (old(locked) || (Has(control, LOCK) && granted(old(clock))))
      ensures if Has(control, CFG_RESET) && owed > 0 && old(words) == 0 && old(wait) == 0
              then words == 16 && wait == 0
              else words == old(words) &&
                   wait == if Has(control, CFG_RESET) && owed > 0 && old(words) == 0 then old(wait) - 1 else old(wait)
    {
      locked := locked || (Has(control, LOCK) && granted(clock));
      if Has(control, CFG_RESET) && owed > 0 && words == 0 {
        if wait == 0 { words := 16; } else { wait := wait - 1; }
      }
      s := Status(locked, present(clock), words > 0, ready(clock));
      clock := clock + 1;
    }

    method WriteLbaLow(v: nat)
      requires v < 0x1_0000
      modifies this`lbaLow
      ensures lbaLow == v
    {
      lbaLow := v;
    }

    method WriteLbaHigh(v: nat)
      requires v < 0x100
      modifies this`lbaHigh
      ensures lbaHigh == v
    {
      lbaHigh := v;
    }

    /** The command register: command 3 reads sectors, as many as the low byte says, where 0 means 256. */
    method WriteCommand(v: nat)
      requires v < 0x1_0000
      modifies this`at, this`owed, this`words, this`wait
      ensures if locked && v / 0x100 == 3
              then at == 512 * (lbaHigh * 0x1_0000 + lbaLow) && words == 0 &&
                   owed == 16 * (if v % 0x100 == 0 then 256 else v % 0x100)
              else at == old(at) && owed == old(owed) && words == old(words) && wait == old(wait)
    {
      if locked && v / 0x100 == 3 {
        at, words, wait := 512 * (lbaHigh * 0x1_0000 + lbaLow), 0, delay(clock);
        owed := 16 * (if v % 0x100 == 0 then 256 else v % 0x100);
      }
    }

    method ReadData() returns (v: bv16)
      modifies this`at, this`owed, this`words, this`wait
      ensures old(words) > 0 && old(owed) > 0 ==>
                v == Paired(disk(old(at)), disk(old(at) + 1)) && at == old(at) + 2 && words == old(words) - 1 &&
                owed == if words == 0 then old(owed) - 1 else old(owed)
    {
      v := 0;
      if words > 0 && owed > 0 {
        v := Paired(disk(at), disk(at + 1));
        at, words := at + 2, words - 1;
        if words == 0 { owed, wait := owed - 1, delay(clock); }
      }
    }

    /** The first of `n` polls from poll `t` on at which the lock would be granted; `t + n` if none is. */
    function FirstGrant(t: nat, n: nat): (r: nat)
      ensures t <= r <= t + n
      decreases n
    {
      if n == 0 || granted(t) then t else FirstGrant(t + 1, n - 1)
    }

    lemma {:induction false} FirstGrantIs(t: nat, n: nat, r: nat)
      requires t <= r <= t + n && (r < t + n ==> granted(r)) && forall k: nat :: t <= k < r ==> !granted(k)
      ensures FirstGrant(t, n) == r
      decreases n
    {
      if t < r { FirstGrantIs(t + 1, n - 1, r); }
    }

    /** The poll at which `get_cf_lock` sees the lock, if it starts polling at `t`: a lock held already is seen
        at once.  `t + LOCK_POLLS` if it does not see it. */
    function LockSeen(held: bool, t: nat): nat {
      if held then t else FirstGrant(t, LOCK_POLLS)
    }

    /** Whether within `n` polls from poll `t` on the controller becomes ready for a command, with the card
        detected up to then. */
    predicate BecomesReady(t: nat, n: nat)
      decreases n
    {
      n > 0 && present(t) && (ready(t) || BecomesReady(t + 1, n - 1))
    }

    /** `r` is the first poll that settles it: the last one, or one at which the card is missing or the
        controller is ready. */
    lemma {:induction false} BecomesReadyIs(t: nat, n: nat, r: nat)
      requires t <= r < t + n && (r == t + n - 1 || !present(r) || ready(r))
      requires forall k: nat :: t <= k < r ==> present(k) && !ready(k)
      ensures BecomesReady(t, n) <==> present(r) && ready(r)
      decreases n
    {
      if t < r { BecomesReadyIs(t + 1, n - 1, r); }
    }
  }

  // ---------------------------------------------------------------- the driver

  /** `get_cf_lock`: twelve polls; the request stays set whether or not the lock is granted. */
  method GetCfLock(ace: Ace) returns (ok: bool)
    modifies ace`control, ace`clock, ace`locked, ace`words, ace`wait
    ensures ace.control == Set(old(ace.control), LOCK)
    ensures var g := ace.LockSeen(old(ace.locked), old(ace.clock));
            && ok == ace.locked == (g < old(ace.clock) + 12)
            && ace.clock == if ok then g + 1 else old(ace.clock) + 12
  {
    var retry := 10;
    var val := ace.ReadControl();
    LockSet(val);
    hide Has, Set, Status, Ace.FirstGrant;
    ace.WriteControl(Set(val, LOCK));
    var status := ace.ReadStatus();
    while !Has(status, 0x0002)
      invariant -1 <= retry <= 10 && ace.control == Set(old(ace.control), LOCK)
      invariant ace.clock == old(ace.clock) + 11 - retry
      invariant (Has(status, 0x0002) <==> ace.locked) && Has(ace.control, LOCK)
      invariant old(ace.locked) ==> ace.locked && ace.clock == old(ace.clock) + 1
      invariant !old(ace.locked) ==> forall k: nat :: old(ace.clock) <= k < ace.clock - 1 ==> !ace.granted(k)
      invariant !old(ace.locked) ==> ace.locked == ace.granted(ace.clock - 1)
      decreases retry
    {
      if retry < 0 {
        ace.FirstGrantIs(old(ace.clock), LOCK_POLLS, ace.clock);
        return false;
      }
      retry := retry - 1;
      status := ace.ReadStatus();
    }
    if !old(ace.locked) { ace.FirstGrantIs(old(ace.clock), LOCK_POLLS, ace.clock - 1); }
    return true;
  }

  /** `release_cf_lock`. */
  method ReleaseCfLock(ace: Ace)
    modifies ace`control, ace`locked
    ensures ace.control == Cleared(old(ace.control), LOCK) && !ace.locked && !Has(ace.control, LOCK)
  {
    var val := ace.ReadControl();
    LockCleared(val);
    hide Has, Cleared;
    ace.WriteControl(Cleared(val, LOCK));
  }

  /** The wait for RDYFORCMD at the head of `systemace_read`: up to 2002 polls; if it fails the lock is
      released. */
  method WaitForCommand(ace: Ace) returns (ok: bool)
    requires ace.locked
    modifies ace`control, ace`clock, ace`locked, ace`words, ace`wait
    ensures ok == ace.BecomesReady(old(ace.clock), 2002) == ace.locked
    ensures ace.control == if ok then old(ace.control) else Cleared(old(ace.control), LOCK)
  {
    hide Has, Cleared, Set, Status, Ace.BecomesReady;
    var retry := 2000;
    while true
      invariant -1 <= retry <= 2000 && ace.clock == old(ace.clock) + 2000 - retry
      invariant ace.locked && ace.control == old(ace.control)
      invariant forall k: nat :: old(ace.clock) <= k < ace.clock ==> ace.present(k) && !ace.ready(k)
      decreases retry
    {
      var val := ace.ReadStatus();
      if !Has(val, 0x0010) {
        ace.BecomesReadyIs(old(ace.clock), READY_POLLS, ace.clock - 1);
        ReleaseCfLock(ace);
        return false;
      }
      if Has(val, 0x0100) {
        ace.BecomesReadyIs(old(ace.clock), READY_POLLS, ace.clock - 1);
        return true;
      }
      if retry < 0 {
        ace.BecomesReadyIs(old(ace.clock), READY_POLLS, ace.clock - 1);
        ReleaseCfLock(ace);
        return false;
      }
      retry := retry - 1;
    }
  }

  /** The wait for a full sector buffer: it ends because the controller fills it in the end. */
  method AwaitBuffer(ace: Ace)
    requires ace.locked && Has(ace.control, CFG_RESET) && ace.owed > 0 && ace.words == 0
    modifies ace`clock, ace`locked, ace`words, ace`wait
    ensures ace.locked && ace.words == 16
  {
    hide Has, Status;
    var status := ace.ReadStatus();
    while !Has(status, 0x0020)
      invariant ace.locked && (ace.words == 0 || ace.words == 16) && (Has(status, 0x0020) <==> ace.words > 0)
      decreases ace.words == 0, ace.wait
    {
      status := ace.ReadStatus();
    }
  }

  /** `n` bytes of the card from byte `at` on. */
  function Stretch(disk: nat -> Byte, at: nat, n: nat): (r: seq<Byte>)
    ensures |r| == n
  {
    seq(n, i requires i >= 0 => disk(at + i))
  }

  /** The sector that lands in block `i` of the buffer: every chunk of 256 starts at its address modulo 2^24. */
  function SectorOf(start: nat, i: nat): nat {
    (start + 256 * (i / 256)) % 0x100_0000 + i % 256
  }

  /** What the first `n` blocks of the buffer are filled with. */
  function Image(disk: nat -> Byte, start: nat, n: nat): (r: seq<Byte>)
    ensures |r| == 512 * n
  {
    if n == 0 then [] else Image(disk, start, n - 1) + Stretch(disk, 512 * SectorOf(start, n - 1), 512)
  }

  /** Sixteen words out of the full sector buffer. */
  method ReadBuffer(ace: Ace, buffer: array<Byte>, from: nat)
    requires ace.words == 16 && ace.owed > 0 && from + 32 <= buffer.Length
    modifies ace`at, ace`owed, ace`words, ace`wait, buffer
    ensures ace.words == 0 && ace.owed == old(ace.owed) - 1 && ace.at == old(ace.at) + 32
    ensures buffer[..from + 32] == old(buffer[..from]) + Stretch(ace.disk, old(ace.at), 32)
    ensures buffer[from + 32..] == old(buffer[from + 32..])
  {
    hide Low, High, Paired;
    var dp, idx := from, 0;
    while idx < 16
      invariant 0 <= idx <= 16 && dp == from + 2 * idx && ace.at == old(ace.at) + 2 * idx
      invariant ace.words == 16 - idx && ace.owed == if idx == 16 then old(ace.owed) - 1 else old(ace.owed)
      invariant buffer[..dp] == old(buffer[..from]) + Stretch(ace.disk, old(ace.at), 2 * idx)
      invariant buffer[from + 32..] == old(buffer[from + 32..])
    {
      var val := ace.ReadData();
      buffer[dp] := Low(val);
      dp := dp + 1;
      buffer[dp] := High(val);
      dp := dp + 1;
      assert buffer[..dp] == buffer[..dp - 2] + [Low(val), High(val)];
      StretchNext(ace.disk, old(ace.at), 2 * idx);
      idx := idx + 1;
    }
  }

  /** The loop over the sector buffers of one chunk. */
  method ReadSectors(ace: Ace, buffer: array<Byte>, from: nat, trans: nat)
    requires ace.locked && Has(ace.control, CFG_RESET) && ace.owed == 16 * trans && ace.words == 0
    requires from + 512 * trans <= buffer.Length
    modifies ace`at, ace`owed, ace`words, ace`wait, ace`clock, ace`locked, buffer
    ensures ace.locked
    ensures buffer[..from + 512 * trans] == old(buffer[..from]) + Stretch(ace.disk, old(ace.at), 512 * trans)
    ensures buffer[from + 512 * trans..] == old(buffer[from + 512 * trans..])
  {
    hide Has, Stretch;
    var retry, dp := trans * 16, from;
    ghost var base := ace.at;
    StretchNone(ace.disk, base);
    while retry > 0
      invariant 0 <= retry <= 16 * trans && ace.owed == retry && ace.words == 0
      invariant dp == from + 32 * (16 * trans - retry) && ace.at == base + (dp - from)
      invariant ace.locked
      invariant buffer[..dp] == old(buffer[..from]) + Stretch(ace.disk, base, dp - from)
      invariant buffer[from + 512 * trans..] == old(buffer[from + 512 * trans..])
    {
      AwaitBuffer(ace);
      ghost var was := buffer[..];
      ReadBuffer(ace, buffer, dp);
      StretchJoin(ace.disk, base, dp - from, 32);
      SameTail(was, buffer[..], dp + 32, from + 512 * trans);
      dp := dp + 32;
      retry := retry - 1;
    }
  }

  /** One chunk of `systemace_read`: at most 256 sectors, from sector `start` modulo 2^24 on. */
  method TransferChunk(ace: Ace, start: nat, trans: nat, buffer: array<Byte>, from: nat)
    requires ace.locked && Has(ace.control, LOCK) && 1 <= trans <= 256 && from + 512 * trans <= buffer.Length
    modifies ace, buffer
    ensures ace.locked && ace.control == Cleared(Set(old(ace.control), CFG_RESET), CFG_RESET)
    ensures buffer[..from + 512 * trans] ==
            old(buffer[..from]) + Stretch(ace.disk, 512 * (start % 0x100_0000), 512 * trans)
    ensures buffer[from + 512 * trans..] == old(buffer[from + 512 * trans..])
  {
    hide Has, Set, Cleared, Stretch, Status;
    ace.WriteLbaLow(start % 0x1_0000);
    ace.WriteLbaHigh(start / 0x1_0000 % 0x100);
    ace.WriteCommand(trans % 0x100 + 0x0300);
    LbaJoins(start);
    ResetSet(ace.control);
    var val := ace.ReadControl();
    ace.WriteControl(Set(val, CFG_RESET));
    ReadSectors(ace, buffer, from, trans);
    val := ace.ReadControl();
    ResetSet(old(ace.control));
    ResetCleared(val);
    ace.WriteControl(Cleared(val, CFG_RESET));
  }

  lemma LbaJoins(start: nat)
    ensures (start / 0x1_0000 % 0x100) * 0x1_0000 + start % 0x1_0000 == start % 0x100_0000
  {
  }

  lemma StretchNext(disk: nat -> Byte, at: nat, n: nat)
    ensures Stretch(disk, at, n + 2) == Stretch(disk, at, n) + [disk(at + n), disk(at + n + 1)]
  {
  }

  lemma StretchJoin(disk: nat -> Byte, at: nat, m: nat, n: nat)
    ensures Stretch(disk, at, m) + Stretch(disk, at + m, n) == Stretch(disk, at, m + n)
  {
  }

  lemma ChunkSector(start: nat, done: nat, j: nat)
    requires done % 256 == 0 && j < 256
    ensures SectorOf(start, done + j) == (start + done) % 0x100_0000 + j
  {
    var q := done / 256;
    assert done + j == 256 * q + j;
    assert (256 * q + j) / 256 == q && (256 * q + j) % 256 == j;
  }

  /** A chunk of sectors is one stretch of the card. */
  lemma {:induction false} ChunkImage(disk: nat -> Byte, start: nat, done: nat, n: nat)
    requires done % 256 == 0 && n <= 256
    ensures Image(disk, start, done + n) ==
            Image(disk, start, done) + Stretch(disk, 512 * ((start + done) % 0x100_0000), 512 * n)
  {
    var a := 512 * ((start + done) % 0x100_0000);
    hide SectorOf, Stretch;
    if n > 0 {
      ChunkImage(disk, start, done, n - 1);
      ChunkSector(start, done, n - 1);
      StretchJoin(disk, a, 512 * (n - 1), 512);
    } else {
      StretchNone(disk, a);
    }
  }

  lemma StretchNone(disk: nat -> Byte, at: nat)
    ensures Stretch(disk, at, 0) == []
  {
  }

  /** The blocks of the buffer are sectors start, start + 1, ... exactly when the last chunk begins below
      sector 2^24. */
  lemma SectorsInOrderIff(start: nat, blkcnt: nat)
    ensures (forall i: nat :: i < blkcnt ==> SectorOf(start, i) == start + i) <==>
            (blkcnt == 0 || start + 256 * ((blkcnt - 1) / 256) < 0x100_0000)
  {
    if blkcnt > 0 {
      var last := 256 * ((blkcnt - 1) / 256);
      hide SectorOf;
      ChunkSector(start, last, 0);
      if start + last < 0x100_0000 {
        forall i: nat | i < blkcnt ensures SectorOf(start, i) == start + i {
          ChunkSector(start, 256 * (i / 256), i % 256);
          assert 256 * (i / 256) <= last;
        }
      } else {
        assert SectorOf(start, last) != start + last;
      }
    }
  }

  /** Byte by byte: block `i` of the buffer is a sector of the card. */
  lemma {:induction false} ImageBytes(disk: nat -> Byte, start: nat, n: nat, i: nat, j: nat)
    requires i < n && j < 512
    ensures Image(disk, start, n)[512 * i + j] == disk(512 * SectorOf(start, i) + j)
  {
    hide SectorOf;
    if i < n - 1 { ImageBytes(disk, start, n - 1, i, j); }
  }

  /** As long as the last chunk begins below sector 2^24, the buffer is one stretch of the card. */
  lemma ImageInOrder(disk: nat -> Byte, start: nat, n: nat)
    requires n > 0 && start + 256 * ((n - 1) / 256) < 0x100_0000
    ensures forall b :: 0 <= b < 512 * n ==> Image(disk, start, n)[b] == disk(512 * start + b)
  {
    hide SectorOf, Image;
    SectorsInOrderIff(start, n);
    forall b | 0 <= b < 512 * n ensures Image(disk, start, n)[b] == disk(512 * start + b) {
      ImageBytes(disk, start, n, b / 512, b % 512);
    }
  }

  /** What happens to the lock: it is seen within the polls allowed, and then the controller becomes ready
      within the polls allowed. */
  predicate Served(ace: Ace, held: bool, t: nat)
  {
    var g := ace.LockSeen(held, t);
    g < t + 12 && ace.BecomesReady(g + 1, 2002)
  }

  /** The 32-bit sector number a run has come to. */
  function SectorAt(start: nat, done: nat): nat {
    (start + done) % 0x1_0000_0000
  }

  predicate Aligned(done: nat) {
    done % 256 == 0
  }

  lemma RunStarts(start: nat)
    requires start < 0x1_0000_0000
    ensures SectorAt(start, 0) == start && Aligned(0)
  {
  }

  /** From one chunk to the next. */
  lemma RunGoesOn(disk: nat -> Byte, start: nat, done: nat, trans: nat)
    requires Aligned(done) && trans <= 256
    ensures Aligned(done + 256)
    ensures (SectorAt(start, done) + trans) % 0x1_0000_0000 == SectorAt(start, done + trans)
    ensures Image(disk, start, done + trans) ==
            Image(disk, start, done) + Stretch(disk, 512 * (SectorAt(start, done) % 0x100_0000), 512 * trans)
  {
    hide Image, Stretch, SectorOf;
    ChunkImage(disk, start, done, trans);
    AddressSteps(start, done, trans);
  }

  lemma AddressSteps(start: nat, done: nat, trans: nat)
    requires Aligned(done)
    ensures Aligned(done + 256)
    ensures (SectorAt(start, done) + trans) % 0x1_0000_0000 == SectorAt(start, done + trans)
    ensures SectorAt(start, done) % 0x100_0000 == (start + done) % 0x100_0000
  {
    AddressWraps(start + done);
    AddressAdds(start + done, trans);
  }

  lemma AddressAdds(a: nat, b: nat)
    ensures (a % 0x1_0000_0000 + b) % 0x1_0000_0000 == (a + b) % 0x1_0000_0000
  {
  }

  /** The loop over chunks in `systemace_read`. */
  method TransferAll(ace: Ace, start: nat, blkcnt: nat, buffer: array<Byte>)
    requires ace.locked && Has(ace.control, LOCK)
    requires start < 0x1_0000_0000 && 512 * blkcnt <= buffer.Length
    modifies ace, buffer
    ensures ace.locked && Has(ace.control, LOCK)
    ensures buffer[..] == Image(ace.disk, start, blkcnt) + old(buffer[512 * blkcnt..])
  {
    hide Has, Set, Cleared, Image, Stretch, SectorAt, Aligned;
    var sector, countdown, dp := start, blkcnt, 0;
    ghost var done := 0;
    ImageNone(ace.disk, start);
    RunStarts(start);
    while countdown > 0
      invariant 0 <= countdown && done + countdown == blkcnt && dp == 512 * done && (Aligned(done) || countdown == 0)
      invariant sector == SectorAt(start, done)
      invariant ace.locked && Has(ace.control, LOCK)
      invariant buffer[..dp] == Image(ace.disk, start, done)
      invariant buffer[512 * blkcnt..] == old(buffer[512 * blkcnt..])
    {
      var trans := countdown;
      if trans > 256 { trans := 256; }
      ghost var was := buffer[..];
      ResetSet(ace.control);
      ResetCleared(Set(ace.control, CFG_RESET));
      TransferChunk(ace, sector, trans, buffer, dp);
      SameTail(was, buffer[..], dp + 512 * trans, 512 * blkcnt);
      RunGoesOn(ace.disk, start, done, trans);
      sector := (sector + trans) % 0x1_0000_0000;
      countdown := countdown - trans;
      done, dp := done + trans, dp + 512 * trans;
    }
    assert buffer[..] == buffer[..dp] + buffer[dp..];
  }

  /** `systemace_read`: when served, every block wanted is in the buffer and nothing else is touched;
      otherwise the buffer is as it was.  The lock request is clear on every return, except when the lock was
      never seen: then the request is left standing, the status is read once more for the message, and the lock
      is held on return exactly if the controller grants it just then. */
  method SystemaceRead(ace: Ace, start: nat, blkcnt: nat, buffer: array<Byte>) returns (r: nat)
    requires start < 0x1_0000_0000 && blkcnt < 0x1_0000_0000 && 512 * blkcnt <= buffer.Length
    modifies ace, buffer
    ensures r == if Served(ace, old(ace.locked), old(ace.clock)) then blkcnt else 0
    ensures buffer[..] == if Served(ace, old(ace.locked), old(ace.clock))
                          then Image(ace.disk, start, blkcnt) + old(buffer[512 * blkcnt..])
                          else old(buffer[..])
    ensures var missed := ace.LockSeen(old(ace.locked), old(ace.clock)) == old(ace.clock) + 12;
            && (Has(ace.control, LOCK) <==> missed)
            && (ace.locked <==> missed && ace.granted(old(ace.clock) + 12))
  {
    hide Has, Set, Cleared, Image, Status, Ace.FirstGrant, Ace.BecomesReady;
    LockSet(ace.control);
    var ok := GetCfLock(ace);
    if !ok {
      var status := ace.ReadStatus();
      return 0;
    }
    LockCleared(ace.control);
    ok := WaitForCommand(ace);
    if !ok {
      return 0;
    }
    TransferAll(ace, start, blkcnt, buffer);
    ReleaseCfLock(ace);
    return blkcnt;
  }

  /** The lock can be left held: a controller that grants it only at the thirteenth poll. */
  method LockLeftHeld(ace: Ace, start: nat, blkcnt: nat, buffer: array<Byte>) returns (r: nat)
    requires start < 0x1_0000_0000 && blkcnt < 0x1_0000_0000 && 512 * blkcnt <= buffer.Length
    requires !ace.locked && forall k: nat :: ace.granted(k) <==> k == ace.clock + LOCK_POLLS
    modifies ace, buffer
    ensures r == 0 && ace.locked && Has(ace.control, LOCK) && buffer[..] == old(buffer[..])
  {
    hide Has, Image;
    ace.FirstGrantIs(ace.clock, LOCK_POLLS, ace.clock + LOCK_POLLS);
    r := SystemaceRead(ace, start, blkcnt, buffer);
  }

  lemma ImageNone(disk: nat -> Byte, start: nat)
    ensures Image(disk, start, 0) == []
  {
  }

  lemma AddressWraps(a: nat)
    ensures a % 0x1_0000_0000 % 0x100_0000 == a % 0x100_0000
  {
  }
}
