/** The bit-banged two-wire bus (fw-utils/ll_port.c): the master's routines leave a trace of line levels, and
    an independent decoder, which only watches the two wires, reads the transaction back from it. */
module TwoWire {

  import opened BitVectors

  const START_TRIES: nat := 10
  const ACK_TRIES: nat := 8

  // ---------------------------------------------------------------- the wires

  /** What happens on the bus: the clock or the data pin driven to a level, or the master sampling the data
      line, where the other side may be pulling it low. */
  datatype Event = Scl(high: bool) | Sda(high: bool) | Sample(level: bool)

  /** What the decoder reports.  `Torn` is a byte cut short by a START or a STOP. */
  datatype Frame = Starting | Stopping | Octet(value: Byte, acked: bool) | Torn(bits: seq<bool>)

  /** A decoder of the wires, after the I2C-bus specification UM10204, sections 3.1.3 to 3.1.6: a change of
      the data line while the clock is high is a START (falling) or a STOP (rising); any other clock pulse is
      one bit, low if either side held the line low; nine bits are a byte, most significant bit first, and
      its acknowledge, which is low.  `pending` says a clock pulse is in progress and `bit` what it carries. */
  datatype Observer = Observer(scl: bool, sda: bool, pending: bool, bit: bool, bits: seq<bool>, frames: seq<Frame>)

  /** The frames seen, with what is left of a byte that has just been cut short. */
  function Cut(o: Observer): seq<Frame> {
    if o.bits == [] then o.frames else o.frames + [Torn(o.bits)]
  }

  function Pulse(o: Observer): Observer {
    if |o.bits| < 8 then o.(bits := o.bits + [o.bit])
    else o.(bits := [], frames := o.frames + [Octet(ByteOf(o.bits), !o.bit)])
  }

  function Watch(o: Observer, e: Event): Observer {
    match e
    case Scl(high) =>
      if high && !o.scl then o.(scl := true, pending := true, bit := o.sda)
      else if !high && o.scl then (if o.pending then Pulse(o) else o).(scl := false, pending := false)
      else o
    case Sda(high) =>
      if o.scl && high != o.sda then
        o.(sda := high, pending := false, bits := [], frames := Cut(o) + [if high then Stopping else Starting])
      else o.(sda := high)
    case Sample(level) => o.(bit := o.bit && level)
  }

  function Observe(o: Observer, trace: seq<Event>): Observer {
    if trace == [] then o else Watch(Observe(o, trace[..|trace| - 1]), trace[|trace| - 1])
  }

  /** The observer once a clock pulse in progress is over. */
  function Settled(o: Observer): Observer {
    Watch(o, Scl(false))
  }

  // ---------------------------------------------------------------- bytes and bits

  /** 0x80, 0x40, ..., 0x01, and then nothing. */
  function Mask(k: nat): Byte {
    if k == 0 then 0x80 else Half(Mask(k - 1))
  }

  /** The byte whose first bits, most significant first, are these. */
  function ByteOf(bits: seq<bool>): Byte {
    if bits == [] then 0 else
      ByteOf(bits[..|bits| - 1]) | (if bits[|bits| - 1] then Mask(|bits| - 1) else 0)
  }

  predicate Has(b: Byte, mask: Byte) {
    b & mask != 0
  }

  function Double(b: Byte): Byte {
    b << 1
  }

  /** A byte after `k` left shifts. */
  function Shifted(b: Byte, k: nat): Byte {
    if k == 0 then b else Double(Shifted(b, k - 1))
  }

  /** The first `n` bits of a byte in the order `ll_Write` sends them. */
  function SentBits(b: Byte, n: nat): (r: seq<bool>)
    ensures |r| == n
  {
    if n == 0 then [] else SentBits(b, n - 1) + [Has(Shifted(b, n - 1), 0x80)]
  }

  lemma Masks()
    ensures Mask(0) == 0x80 && Mask(1) == 0x40 && Mask(2) == 0x20 && Mask(3) == 0x10
    ensures Mask(4) == 0x08 && Mask(5) == 0x04 && Mask(6) == 0x02 && Mask(7) == 0x01 && Mask(8) == 0
  {
  }

  lemma MaskEnds(k: nat)
    requires k <= 8
    ensures Mask(k) == 0 <==> k == 8
  {
    Masks();
  }

  function Pick(b: Byte, mask: Byte): Byte {
    if Has(b, mask) then mask else 0
  }

  lemma EightPicks(b: Byte)
    ensures Pick(b, 0x80) | Pick(b, 0x40) | Pick(b, 0x20) | Pick(b, 0x10)
         | Pick(b, 0x08) | Pick(b, 0x04) | Pick(b, 0x02) | Pick(b, 0x01) == b
  {
  }

  /** One left shift moves every mask one place. */
  lemma ShiftStep(x: Byte, j: nat)
    requires j < 7
    ensures Has(Double(x), Mask(j)) <==> Has(x, Mask(j + 1))
  {
    Masks();
  }

  lemma {:induction false} ShiftedBit(b: Byte, k: nat, j: nat)
    requires j + k < 8
    ensures Has(Shifted(b, k), Mask(j)) <==> Has(b, Mask(j + k))
    decreases k
  {
    hide Mask, Has;
    if k > 0 {
      ShiftStep(Shifted(b, k - 1), j);
      ShiftedBit(b, k - 1, j + 1);
    }
  }

  lemma ByteOfNext(bits: seq<bool>, bit: bool)
    ensures ByteOf(bits + [bit]) == ByteOf(bits) | (if bit then Mask(|bits|) else 0)
  {
    hide Mask;
    assert (bits + [bit])[..|bits|] == bits;
  }

  /** What has been sent so far, one masked bit after the other. */
  lemma SentStep(b: Byte, n: nat)
    requires n < 8
    ensures ByteOf(SentBits(b, n + 1)) == ByteOf(SentBits(b, n)) | Pick(b, Mask(n))
  {
    hide Mask, Shifted, Has, ByteOf;
    ShiftedBit(b, n, 0);
    Masks();
    ByteOfNext(SentBits(b, n), Has(Shifted(b, n), 0x80));
  }

  /** Eight bits most significant first are the byte: the decoder's reading of what `ll_Write` sends. */
  lemma SentIsByte(b: Byte)
    ensures ByteOf(SentBits(b, 8)) == b
  {
    SentStep(b, 0); SentStep(b, 1); SentStep(b, 2); SentStep(b, 3);
    SentStep(b, 4); SentStep(b, 5); SentStep(b, 6); SentStep(b, 7);
    Masks();
    EightPicks(b);
    assert 0 | Pick(b, 0x80) == Pick(b, 0x80);
  }

  function Half(b: Byte): Byte {
    b >> 1
  }

  /** The first of eight bits is the most significant. */
  lemma FirstBitOnTop(bits: seq<bool>)
    requires |bits| == 8
    ensures var b := ByteOf(bits);
            && (b & 0x80 != 0 <==> bits[0]) && (b & 0x40 != 0 <==> bits[1]) && (b & 0x20 != 0 <==> bits[2])
            && (b & 0x10 != 0 <==> bits[3]) && (b & 0x08 != 0 <==> bits[4]) && (b & 0x04 != 0 <==> bits[5])
            && (b & 0x02 != 0 <==> bits[6]) && (b & 0x01 != 0 <==> bits[7])
  {
    hide Mask, ByteOf;
    Masks();
    NoBits();
    BitNext(bits, 0); BitNext(bits, 1); BitNext(bits, 2); BitNext(bits, 3);
    BitNext(bits, 4); BitNext(bits, 5); BitNext(bits, 6); BitNext(bits, 7);
    assert bits[..0] == [] && bits[..8] == bits;
    BitsTogether(bits[0], bits[1], bits[2], bits[3], bits[4], bits[5], bits[6], bits[7]);
  }

  lemma NoBits()
    ensures ByteOf([]) == 0
  {
  }

  lemma BitNext(bits: seq<bool>, k: nat)
    requires k < |bits|
    ensures ByteOf(bits[..k + 1]) == ByteOf(bits[..k]) | (if bits[k] then Mask(k) else 0)
  {
    ByteOfNext(bits[..k], bits[k]);
    assert bits[..k + 1] == bits[..k] + [bits[k]];
  }

  function When(bit: bool, mask: Byte): Byte {
    if bit then mask else 0
  }

  lemma BitsTogether(a: bool, b: bool, c: bool, d: bool, e: bool, f: bool, g: bool, h: bool)
    ensures var x := 0 | When(a, 0x80) | When(b, 0x40) | When(c, 0x20) | When(d, 0x10) | When(e, 0x08) |
                     When(f, 0x04) | When(g, 0x02) | When(h, 0x01);
            && (x & 0x80 != 0 <==> a) && (x & 0x40 != 0 <==> b) && (x & 0x20 != 0 <==> c) && (x & 0x10 != 0 <==> d)
            && (x & 0x08 != 0 <==> e) && (x & 0x04 != 0 <==> f) && (x & 0x02 != 0 <==> g) && (x & 0x01 != 0 <==> h)
  {
  }

  /** What `ll_Read` starts from. */
  lemma ReadStart()
    ensures ByteOf([]) == 0 && Mask(0) == 0x80
  {
  }

  /** One more bit read. */
  lemma ReadStep(r: Byte, bits: seq<bool>, bit: bool, mask: Byte)
    requires r == ByteOf(bits) && mask == Mask(|bits|)
    ensures (if bit then r | mask else r) == ByteOf(bits + [bit])
    ensures Half(mask) == Mask(|bits| + 1)
  {
    ByteOfNext(bits, bit);
    assert r | 0 == r;
  }

  // ---------------------------------------------------------------- one clock pulse

  /** With the clock low nothing is under way. */
  lemma BetweenBits(o: Observer)
    requires !o.scl
    ensures Settled(o) == o
  {
  }

  /** Nor is there on a bus at rest. */
  lemma AtRest(o: Observer)
    requires !o.pending && o.bits == []
    ensures Cut(Settled(o)) == o.frames
  {
  }

  /** Clock low, data to a level, clock high: one more bit, once the pulse is over. */
  lemma BitSent(o: Observer, high: bool)
    requires |Settled(o).bits| < 8
    ensures var p := Settled(Watch(Watch(Settled(o), Sda(high)), Scl(true)));
            p.bits == Settled(o).bits + [high] && p.frames == Settled(o).frames && !p.scl
  {
    hide ByteOf;
  }

  /** The ninth pulse, with the data line released: the byte is acknowledged exactly if the line is seen
      low during the pulse. */
  lemma Acknowledge(o: Observer)
    requires |Settled(o).bits| == 8
    ensures var p := Watch(Watch(Settled(o), Sda(true)), Scl(true));
            && Watch(p, Sample(true)) == p
            && Watched(Settled(p), Settled(o).frames + [Octet(ByteOf(Settled(o).bits), false)])
            && Watched(Settled(Watch(p, Sample(false))), Settled(o).frames + [Octet(ByteOf(Settled(o).bits), true)])
  {
    hide ByteOf;
  }

  /** A clock pulse with the data line released: the bit is the level the other side drives. */
  lemma BitRead(o: Observer, level: bool)
    requires !o.scl && o.sda && |o.bits| < 8
    ensures var p := Settled(Watch(Watch(Watch(o, Scl(false)), Scl(true)), Sample(level)));
            !p.scl && p.sda && p.bits == o.bits + [level] && p.frames == o.frames
  {
  }

  /** A decoder between two bytes that has seen exactly these frames. */
  predicate Watched(o: Observer, frames: seq<Frame>) {
    !o.scl && o.bits == [] && o.frames == frames
  }

  // ---------------------------------------------------------------- the master

  datatype ReturnCode = SUCCESS | FAIL_CMDSTART | FAIL_CMDSEND | FAIL_WRDATA

  /** `k` attempts at a command's first byte that nobody acknowledged, each begun by its own START. */
  function Refused(b: Byte, k: nat): seq<Frame> {
    if k == 0 then [] else Refused(b, k - 1) + [Starting, Octet(b, false)]
  }

  function Acked(bytes: seq<Byte>): (r: seq<Frame>)
    ensures |r| == |bytes|
  {
    seq(|bytes|, i requires 0 <= i < |bytes| => Octet(bytes[i], true))
  }

  lemma AckedNext(bytes: seq<Byte>, i: nat)
    requires i < |bytes|
    ensures Acked(bytes[..i + 1]) == Acked(bytes[..i]) + [Octet(bytes[i], true)]
    ensures Acked(bytes[..0]) == []
  {
  }

  /** Bytes read: every one acknowledged by the master except the last. */
  function Received(bytes: seq<Byte>): seq<Frame> {
    if bytes == [] then [] else Acked(bytes[..|bytes| - 1]) + [Octet(bytes[|bytes| - 1], false)]
  }

  /** Byte by byte: the last one read is the one that is not acknowledged. */
  lemma ReceivedIs(bytes: seq<Byte>)
    ensures |Received(bytes)| == |bytes|
    ensures forall i :: 0 <= i < |bytes| ==> Received(bytes)[i] == Octet(bytes[i], i + 1 < |bytes|)
  {
  }

  /** The eight levels the other side puts on the line while the byte that starts at sample `at` is read. */
  function Driven(slave: nat -> bool, at: nat, n: nat): (r: seq<bool>)
    ensures |r| == n
  {
    seq(n, i requires 0 <= i => slave(at + i))
  }

  /** What the decoder sees of a command after the refused attempts. */
  function Answered(code: ReturnCode, bytes: seq<Byte>, sent: nat): seq<Frame>
    requires sent <= |bytes| && (code == FAIL_CMDSEND ==> sent < |bytes|)
  {
    match code
    case FAIL_CMDSTART => []
    case FAIL_CMDSEND => [Starting] + Acked(bytes[..sent]) + [Octet(bytes[sent], false)]
    case _ => [Starting] + Acked(bytes[..sent])
  }

  lemma AckedJoin(a: seq<Byte>, b: seq<Byte>)
    ensures Acked(a + b) == Acked(a) + Acked(b)
  {
  }

  lemma AnsweredCases(p: seq<Frame>, bytes: seq<Byte>, sent: nat)
    requires sent <= |bytes|
    ensures p + Answered(FAIL_CMDSTART, bytes, sent) == p
    ensures p + Answered(SUCCESS, bytes, sent) == p + [Starting] + Acked(bytes[..sent])
    ensures sent < |bytes| ==> p + Answered(FAIL_CMDSEND, bytes, sent) ==
                               p + [Starting] + Acked(bytes[..sent]) + [Octet(bytes[sent], false)]
  {
    hide Acked;
  }

  lemma RefusedNext(p: seq<Frame>, b: Byte, k: nat)
    ensures p + Refused(b, 0) == p
    ensures p + Refused(b, k) + [Starting] + [Octet(b, false)] == p + Refused(b, k + 1)
  {
  }

  lemma {:induction false} RefusedAt(b: Byte, k: nat)
    ensures |Refused(b, k)| == 2 * k
    ensures forall j :: 0 <= j < k ==> Refused(b, k)[2 * j + 1] == Octet(b, false)
  {
    if k > 0 { RefusedAt(b, k - 1); }
  }

  predicate AckedAt(frames: seq<Frame>, j: nat) {
    2 * j + 1 < |frames| && frames[2 * j + 1].Octet? && frames[2 * j + 1].acked
  }

  lemma FirstAcked(b: Byte, k: nat, bytes: seq<Byte>)
    requires bytes != []
    ensures var t := Refused(b, k) + [Starting] + Acked(bytes) + [Stopping];
            && AckedAt(t, k) && (forall j: nat :: j < k ==> !AckedAt(t, j))
            && |t| == 2 * k + 2 + |bytes|
            && forall i :: 0 <= i < |bytes| ==> t[2 * k + 1 + i] == Octet(bytes[i], true)
  {
    hide Refused;
    RefusedAt(b, k);
    var t := Refused(b, k) + [Starting] + Acked(bytes) + [Stopping];
    forall j: nat | j < k ensures !AckedAt(t, j) {
      assert t[2 * j + 1] == Refused(b, k)[2 * j + 1];
    }
  }

  /** A write transaction can be read in one way only: the same frames mean the same number of refused
      attempts and the same bytes. */
  lemma TranscriptUnique(b: Byte, k: nat, bytes: seq<Byte>, b': Byte, k': nat, bytes': seq<Byte>)
    requires bytes != [] && bytes' != []
    requires Refused(b, k) + [Starting] + Acked(bytes) + [Stopping] ==
             Refused(b', k') + [Starting] + Acked(bytes') + [Stopping]
    ensures k == k' && bytes == bytes'
  {
    hide Refused, Acked;
    FirstAcked(b, k, bytes);
    FirstAcked(b', k', bytes');
    var t, t' := Refused(b, k) + [Starting] + Acked(bytes) + [Stopping],
      Refused(b', k') + [Starting] + Acked(bytes') + [Stopping];
    assert k == k';
    assert |bytes| == |bytes'|;
    forall i | 0 <= i < |bytes| ensures bytes[i] == bytes'[i] {
      assert t[2 * k + 1 + i] == Octet(bytes[i], true) && t'[2 * k + 1 + i] == Octet(bytes'[i], true);
    }
  }

  predicate OctetAt(frames: seq<Frame>, j: nat, value: Byte) {
    j < |frames| && frames[j].Octet? && frames[j].value == value
  }

  lemma ReadParts(b: Byte, k: nat, command: seq<Byte>, answer: seq<Byte>)
    requires command != []
    ensures var t := Refused(b, k) + [Starting] + Acked(command) + Received(answer) + [Stopping];
            && AckedAt(t, k) && (forall j: nat :: j < k ==> !AckedAt(t, j))
            && |t| == 2 * k + 2 + |command + answer|
            && forall i :: 0 <= i < |command + answer| ==> OctetAt(t, 2 * k + 1 + i, (command + answer)[i])
  {
    hide Refused;
    RefusedAt(b, k);
    var t := Refused(b, k) + [Starting] + Acked(command) + Received(answer) + [Stopping];
    forall j: nat | j < k ensures !AckedAt(t, j) {
      assert t[2 * j + 1] == Refused(b, k)[2 * j + 1];
    }
  }

  /** A read transaction, too: the number of refused attempts and all bytes, those of the command and then those
      of the answer.  Where the one ends and the other begins is not on the wires. */
  lemma ReadTranscriptUnique(b: Byte, k: nat, command: seq<Byte>, answer: seq<Byte>,
                             b': Byte, k': nat, command': seq<Byte>, answer': seq<Byte>)
    requires command != [] && command' != []
    requires Refused(b, k) + [Starting] + Acked(command) + Received(answer) + [Stopping] ==
             Refused(b', k') + [Starting] + Acked(command') + Received(answer') + [Stopping]
    ensures k == k' && command + answer == command' + answer'
    ensures |command| == |command'| ==> command == command' && answer == answer'
  {
    hide Refused, Acked, Received;
    ReadParts(b, k, command, answer);
    ReadParts(b', k', command', answer');
    assert k == k';
    var all, all' := command + answer, command' + answer';
    forall i | 0 <= i < |all| ensures all[i] == all'[i] {
      var t := Refused(b, k) + [Starting] + Acked(command) + Received(answer) + [Stopping];
      assert OctetAt(t, 2 * k + 1 + i, all[i]) && OctetAt(t, 2 * k + 1 + i, all'[i]);
    }
    if |command| == |command'| {
      assert command == all[..|command|] && command' == all'[..|command|];
      assert answer == all[|command|..] && answer' == all'[|command|..];
    }
  }

  // ---------------------------------------------------------------- data changes while the clock is high

  function Conditions(frames: seq<Frame>): nat {
    if frames == [] then 0 else
      Conditions(frames[..|frames| - 1]) + if frames[|frames| - 1] in {Starting, Stopping} then 1 else 0
  }

  /** The level a line is left at, counting only what drives it. */
  function ClockAt(scl: bool, trace: seq<Event>): bool {
    if trace == [] then scl else
      var e := trace[|trace| - 1];
      if e.Scl? then e.high else ClockAt(scl, trace[..|trace| - 1])
  }

  function DataAt(sda: bool, trace: seq<Event>): bool {
    if trace == [] then sda else
      var e := trace[|trace| - 1];
      if e.Sda? then e.high else DataAt(sda, trace[..|trace| - 1])
  }

  /** How often the data line is changed while the clock is high. */
  function Changes(scl: bool, sda: bool, trace: seq<Event>): nat {
    if trace == [] then 0 else
      var rest, e := trace[..|trace| - 1], trace[|trace| - 1];
      Changes(scl, sda, rest) + if e.Sda? && ClockAt(scl, rest) && e.high != DataAt(sda, rest) then 1 else 0
  }

  lemma ConditionsNext(frames: seq<Frame>, f: Frame)
    ensures Conditions(frames + [f]) == Conditions(frames) + if f in {Starting, Stopping} then 1 else 0
  {
    assert (frames + [f])[..|frames|] == frames;
  }

  lemma WatchCounts(o: Observer, e: Event)
    ensures Conditions(Watch(o, e).frames) ==
            Conditions(o.frames) + if e.Sda? && o.scl && e.high != o.sda then 1 else 0
  {
    hide ByteOf, Conditions;
    ConditionsNext(o.frames, Octet(ByteOf(o.bits), !o.bit));
    ConditionsNext(o.frames, Torn(o.bits));
    ConditionsNext(Cut(o), Starting);
    ConditionsNext(Cut(o), Stopping);
  }

  /** Of any run of the wires: the data line changes under a high clock exactly as often as the decoder
      reports a START or a STOP.  A transaction with one of each therefore holds its data still under every
      other clock pulse. */
  lemma {:induction false} ChangesAreConditions(o: Observer, trace: seq<Event>)
    ensures Conditions(Observe(o, trace).frames) == Conditions(o.frames) + Changes(o.scl, o.sda, trace)
    ensures Observe(o, trace).scl == ClockAt(o.scl, trace) && Observe(o, trace).sda == DataAt(o.sda, trace)
  {
    if trace != [] {
      var rest, e := trace[..|trace| - 1], trace[|trace| - 1];
      ChangesAreConditions(o, rest);
      WatchCounts(Observe(o, rest), e);
    }
  }

  lemma {:induction false} ConditionsJoin(a: seq<Frame>, b: seq<Frame>)
    ensures Conditions(a + b) == Conditions(a) + Conditions(b)
  {
    if b == [] {
      assert a + b == a;
    } else {
      ConditionsJoin(a, b[..|b| - 1]);
      assert (a + b)[..|a + b| - 1] == a + b[..|b| - 1];
    }
  }

  lemma {:induction false} OctetsOnly(frames: seq<Frame>)
    requires forall f <- frames :: f.Octet?
    ensures Conditions(frames) == 0
  {
    if frames != [] {
      assert frames[|frames| - 1] in frames;
      OctetsOnly(frames[..|frames| - 1]);
    }
  }

  lemma {:induction false} RefusedConditions(b: Byte, k: nat)
    ensures Conditions(Refused(b, k)) == k
  {
    if k > 0 {
      RefusedConditions(b, k - 1);
      ConditionsJoin(Refused(b, k - 1), [Starting, Octet(b, false)]);
      ConditionsNext([Starting], Octet(b, false));
      ConditionsNext([], Starting);
      assert [Starting, Octet(b, false)] == [Starting] + [Octet(b, false)] && [Starting] == [] + [Starting];
    }
  }

  /** A transaction has one START for every attempt and one STOP. */
  lemma TransactionConditions(before: seq<Frame>, b: Byte, k: nat, octets: seq<Frame>)
    requires forall f <- octets :: f.Octet?
    ensures Conditions(before + Refused(b, k) + [Starting] + octets + [Stopping]) == Conditions(before) + k + 2
  {
    hide Conditions, Refused;
    RefusedConditions(b, k);
    OctetsOnly(octets);
    ConditionsJoin(before, Refused(b, k));
    ConditionsNext(before + Refused(b, k), Starting);
    ConditionsJoin(before + Refused(b, k) + [Starting], octets);
    ConditionsNext(before + Refused(b, k) + [Starting] + octets, Stopping);
  }

  lemma WriteConditions(before: seq<Frame>, b: Byte, k: nat, bytes: seq<Byte>)
    ensures Conditions(before + Refused(b, k) + [Starting] + Acked(bytes) + [Stopping]) == Conditions(before) + k + 2
  {
    hide Conditions, Refused;
    TransactionConditions(before, b, k, Acked(bytes));
  }

  lemma ReadConditions(before: seq<Frame>, b: Byte, k: nat, command: seq<Byte>, answer: seq<Byte>)
    ensures Conditions(before + Refused(b, k) + [Starting] + Acked(command) + Received(answer) + [Stopping]) ==
            Conditions(before) + k + 2
  {
    hide Conditions, Refused;
    TransactionConditions(before, b, k, Acked(command) + Received(answer));
    Grouped(before + Refused(b, k) + [Starting], Acked(command), Received(answer), [Stopping]);
  }

  lemma Grouped(a: seq<Frame>, b: seq<Frame>, c: seq<Frame>, d: seq<Frame>)
    ensures a + (b + c) + d == a + b + c + d
  {
  }

  class Bus {
    var trace: seq<Event>
    var samples: nat
    const slave: nat -> bool
    ghost const before: Observer

    /** A bus in any state; `slave` is what the other side will drive, sample by sample. */
    constructor (slave: nat -> bool, ghost before: Observer)
      ensures trace == [] && samples == 0 && this.slave == slave && this.before == before
    {
      this.slave, this.before, trace, samples := slave, before, [], 0;
    }

    /** What the decoder has made of the wires so far. */
    ghost function Seen(): Observer
      reads this
    {
      Observe(before, trace)
    }

    /** Between two bytes of a transaction: the clock is low and no bit is half way. */
    ghost predicate Ready()
      reads this
    {
      !Seen().scl && Seen().bits == []
    }

    method Emit(e: Event)
      modifies this`trace
      ensures Seen() == Watch(old(Seen()), e) && trace == old(trace) + [e]
    {
      assert (trace + [e])[..|trace|] == trace;
      trace := trace + [e];
    }

    method ClockCycle()
      modifies this`trace
      ensures Seen() == Watch(Watch(old(Seen()), Scl(false)), Scl(true))
    {
      Emit(Scl(false));
      Emit(Scl(true));
    }

    /** `ll_Data`. */
    method Data() returns (level: bool)
      modifies this
      ensures level == slave(old(samples)) && samples == old(samples) + 1
      ensures Seen() == Watch(old(Seen()), Sample(level))
    {
      level := slave(samples);
      samples := samples + 1;
      Emit(Sample(level));
    }

    /** `ll_Start`: exactly one START, after whatever clock pulse or byte was under way. */
    method StartCondition()
      modifies this`trace
      ensures Ready() && Seen().frames == Cut(Settled(old(Seen()))) + [Starting]
    {
      Emit(Scl(false));
      Emit(Sda(true));
      Emit(Scl(true));
      Emit(Sda(false));
      Emit(Scl(false));
    }

    /** `ll_Stop`: exactly one STOP; both lines are left high and no bit is half way. */
    method StopCondition()
      requires Ready()
      modifies this`trace
      ensures Seen().scl && Seen().sda && !Seen().pending && Seen().bits == []
      ensures Seen().frames == old(Seen().frames) + [Stopping]
    {
      Emit(Scl(false));
      Emit(Sda(false));
      Emit(Scl(true));
      Emit(Sda(true));
    }

    /** `ll_AckNak`: one bit, low to acknowledge; after eight bits it completes the byte. */
    method AckNak(ack: bool)
      requires !Seen().scl
      modifies this`trace
      ensures !Seen().scl
      ensures Seen().bits == if |old(Seen().bits)| < 8 then old(Seen().bits) + [!ack] else []
      ensures Seen().frames == old(Seen().frames) +
                               if |old(Seen().bits)| < 8 then [] else [Octet(ByteOf(old(Seen().bits)), ack)]
    {
      hide ByteOf, Observe;
      Emit(Scl(false));
      if ack { Emit(Sda(false)); } else { Emit(Sda(true)); }
      Emit(Scl(true));
      Emit(Scl(false));
    }

    /** `ll_Write`: the decoder reads exactly this byte; it sees it acknowledged exactly when zero is
        returned, which is when one of eight samples finds the line held low. */
    method Write(data: Byte) returns (r: nat)
      requires Ready()
      modifies this
      ensures Ready() && Seen().frames == old(Seen().frames) + [Octet(data, r == 0)]
      ensures r == 0 <==> exists j: nat :: old(samples) <= j < old(samples) + 8 && !slave(j)
      ensures r == 0 || r == 8
    {
      hide Watch, ByteOf, Observe, Mask, Has, Double;
      var ucData := data;
      var i := 0;
      BetweenBits(Seen());
      while i < 8
        invariant 0 <= i <= 8 && samples == old(samples)
        invariant ucData == Shifted(data, i)
        invariant Settled(Seen()).bits == SentBits(data, i)
        invariant Settled(Seen()).frames == old(Seen().frames)
      {
        BitSent(Seen(), Has(ucData, 0x80));
        Emit(Scl(false));
        if Has(ucData, 0x80) { Emit(Sda(true)); } else { Emit(Sda(false)); }
        Emit(Scl(true));
        ucData := Double(ucData);
        i := i + 1;
      }
      Acknowledge(Seen());
      SentIsByte(data);
      Emit(Scl(false));
      Emit(Sda(true));
      Emit(Scl(true));
      ghost var o := Seen();
      i := 0;
      while i < ACK_TRIES
        invariant 0 <= i <= ACK_TRIES && samples == old(samples) + i
        invariant forall j: nat :: old(samples) <= j < old(samples) + i ==> slave(j)
        invariant Seen() == o
      {
        var level := Data();
        if !level {
          assert Seen() == Watch(o, Sample(false));
          i := 0;
          break;
        }
        i := i + 1;
      }
      Emit(Scl(false));
      return i;
    }

    /** `ll_Read`: eight bits, as the other side drives them; the decoder has seen the same bits. */
    method Read() returns (rByte: Byte)
      requires Ready()
      modifies this
      ensures !Seen().scl && Seen().frames == old(Seen().frames) && samples == old(samples) + 8
      ensures Seen().bits == Driven(slave, old(samples), 8) && rByte == ByteOf(Driven(slave, old(samples), 8))
    {
      hide Observe, ByteOf, Mask;
      rByte := 0;
      ReadStart();
      BetweenBits(Seen());
      Emit(Sda(true));
      var i: Byte := 0x80;
      ghost var k := 0;
      while i != 0
        invariant 0 <= k <= 8 && samples == old(samples) + k && i == Mask(k)
        invariant !Seen().scl && Seen().sda && Seen().frames == old(Seen().frames)
        invariant Seen().bits == Driven(slave, old(samples), k) && rByte == ByteOf(Driven(slave, old(samples), k))
        decreases 8 - k
      {
        MaskEnds(k);
        ghost var o := Seen();
        ClockCycle();
        var level := Data();
        ReadStep(rByte, Driven(slave, old(samples), k), level, i);
        if level { rByte := rByte | i; }
        BitRead(o, level);
        Emit(Scl(false));
        assert Driven(slave, old(samples), k + 1) == Driven(slave, old(samples), k) + [level];
        i := Half(i);
        k := k + 1;
      }
      MaskEnds(k);
    }

    /** `ll_SendCommand`: START and the first byte, as often as nobody acknowledges it but at most ten times;
        then the other bytes, stopping at the first that is not acknowledged.  The decoder sees exactly that.
        On every return the bus is left without a STOP. */
    method SendCommand(insBuf: seq<Byte>, numBytes: nat) returns (code: ReturnCode, ghost retries: nat, ghost sent: nat)
      requires 1 <= |insBuf| && numBytes <= |insBuf| && numBytes < 256
      modifies this
      ensures Ready() && code != FAIL_WRDATA && sent <= |insBuf| && (code == FAIL_CMDSEND ==> sent < |insBuf|)
      ensures Seen().frames == Cut(Settled(old(Seen()))) + Refused(insBuf[0], retries) +
                               Answered(code, insBuf, sent)
      ensures code == FAIL_CMDSTART ==> retries == 10
      ensures code == FAIL_CMDSEND ==> retries < 10 && 1 <= sent < numBytes
      ensures code == SUCCESS ==> retries < 10 && sent == (if numBytes == 0 then 1 else numBytes)
    {
      hide Observe, Watch, Settled, ByteOf, Answered, Acked, Refused;
      ghost var base := Cut(Settled(Seen()));
      retries, sent := 0, 0;
      var i := START_TRIES;
      RefusedNext(base, insBuf[0], 0);
      while i != 0
        invariant 0 < i <= START_TRIES && retries == START_TRIES - i
        invariant Cut(Settled(Seen())) == base + Refused(insBuf[0], retries)
      {
        StartCondition();
        var r := Write(insBuf[0]);
        BetweenBits(Seen());
        if r == 0 { break; }
        RefusedNext(base, insBuf[0], retries);
        i, retries := i - 1, retries + 1;
        if i == 0 {
          AnsweredCases(base + Refused(insBuf[0], retries), insBuf, sent);
          return FAIL_CMDSTART, retries, sent;
        }
      }
      i, sent := 1, 1;
      AckedNext(insBuf, 0);
      ghost var asked := base + Refused(insBuf[0], retries) + [Starting];
      while i < numBytes
        invariant 1 <= i == sent <= |insBuf| && (i <= numBytes || (numBytes == 0 && i == 1)) && Ready()
        invariant Seen().frames == asked + Acked(insBuf[..sent])
      {
        var r := Write(insBuf[i]);
        if r != 0 {
          AnsweredCases(base + Refused(insBuf[0], retries), insBuf, sent);
          return FAIL_CMDSEND, retries, sent;
        }
        AckedNext(insBuf, i);
        i, sent := i + 1, sent + 1;
      }
      AnsweredCases(base + Refused(insBuf[0], retries), insBuf, sent);
      return SUCCESS, retries, sent;
    }

    /** `ll_SendData`: the bytes and a STOP, or the bytes up to the first that is not acknowledged and then
        no STOP. */
    method SendData(sendBuf: seq<Byte>, len: nat) returns (code: ReturnCode, ghost sent: nat)
      requires Ready() && len <= |sendBuf| && len < 256
      modifies this
      ensures Seen().bits == [] && sent <= len
      ensures code == SUCCESS ==>
                (sent == len && Seen().frames == old(Seen().frames) + Acked(sendBuf[..len]) + [Stopping])
      ensures code != SUCCESS ==> code == FAIL_WRDATA && sent < len && Seen().frames ==
                                  old(Seen().frames) + Acked(sendBuf[..sent]) + [Octet(sendBuf[sent], false)]
    {
      hide Observe, Watch, Settled, ByteOf;
      var i := 0;
      sent := 0;
      while i < len
        invariant 0 <= i == sent <= len && Ready()
        invariant Seen().frames == old(Seen().frames) + Acked(sendBuf[..sent])
      {
        var r := Write(sendBuf[i]);
        if r != 0 { return FAIL_WRDATA, sent; }
        AckedNext(sendBuf, i);
        i, sent := i + 1, sent + 1;
      }
      StopCondition();
      return SUCCESS, sent;
    }

    /** `ll_ReceiveData`: every byte the other side drives, acknowledged except for the last, and a STOP; the
        buffer ends up with the very bytes the decoder saw. */
    method ReceiveData(recBuf: array<Byte>, uclen: nat)
      requires Ready() && uclen <= recBuf.Length && uclen < 256
      modifies this, recBuf
      ensures Seen().frames == old(Seen().frames) + Received(recBuf[..uclen]) + [Stopping]
      ensures forall j :: 0 <= j < uclen ==> recBuf[j] == ByteOf(Driven(slave, old(samples) + 8 * j, 8))
      ensures recBuf[uclen..] == old(recBuf[uclen..])
    {
      hide Observe, Watch, Settled, ByteOf, Driven;
      var left := uclen;
      var i := 0;
      if left > 0 {
        left := left - 1;
        while left != 0
          invariant i + left == uclen - 1 && left >= 0 && Ready() && samples == old(samples) + 8 * i
          invariant Seen().frames == old(Seen().frames) + Acked(recBuf[..i])
          invariant forall j :: 0 <= j < i ==> recBuf[j] == ByteOf(Driven(slave, old(samples) + 8 * j, 8))
          invariant recBuf[uclen..] == old(recBuf[uclen..])
        {
          recBuf[i] := Read();
          AckNak(true);
          AckedNext(recBuf[..], i);
          assert recBuf[..][..i] == recBuf[..i] && recBuf[..][..i + 1] == recBuf[..i + 1];
          i := i + 1;
          left := left - 1;
        }
        recBuf[i] := Read();
        AckNak(false);
        assert recBuf[..uclen][..uclen - 1] == recBuf[..i];
      }
      StopCondition();
    }

    /** How often the data line has been changed under a high clock. */
    ghost function DataChanges(): nat
      reads this
    {
      Changes(before.scl, before.sda, trace)
    }

    lemma ChangesSeen()
      ensures Conditions(Seen().frames) == Conditions(before.frames) + DataChanges()
    {
      ChangesAreConditions(before, trace);
    }

    /** A command that is sent and then data written, on a bus at rest: if both succeed the wires carried
        exactly the refused attempts, START, the command and the data, all acknowledged, and STOP; and the data
        line was changed under a high clock only for these STARTs and the STOP. */
    method CommandAndSend(command: seq<Byte>, data: seq<Byte>) returns (code: ReturnCode, ghost retries: nat)
      requires 1 <= |command| < 256 && |data| < 256
      requires !Seen().pending && Seen().bits == []
      modifies this
      ensures code == SUCCESS ==>
                (retries < 10 && Seen().frames == old(Seen().frames) +
                   Refused(command[0], retries) + [Starting] + Acked(command + data) + [Stopping])
      ensures code == SUCCESS ==> DataChanges() == old(DataChanges()) + retries + 2
    {
      hide Acked, Refused, ByteOf, Conditions, Settled, Cut, Bus.DataChanges, Bus.Seen;
      ghost var sent, frames := 0, Seen().frames;
      ChangesSeen();
      AtRest(Seen());
      code, retries, sent := SendCommand(command, |command|);
      if code == SUCCESS {
        code, sent := SendData(data, |data|);
        assert command[..|command|] == command && data[..|data|] == data;
        AckedJoin(command, data);
        ChangesSeen();
        if code == SUCCESS {
          WriteConditions(frames, command[0], retries, command + data);
        }
      }
    }

    /** The same for a command whose answer is read. */
    method CommandAndReceive(command: seq<Byte>, recBuf: array<Byte>) returns (code: ReturnCode, ghost retries: nat)
      requires 1 <= |command| < 256 && recBuf.Length < 256
      requires !Seen().pending && Seen().bits == []
      modifies this, recBuf
      ensures code == SUCCESS ==>
                (retries < 10 && Seen().frames == old(Seen().frames) +
                   Refused(command[0], retries) + [Starting] + Acked(command) + Received(recBuf[..]) + [Stopping])
      ensures code == SUCCESS ==> DataChanges() == old(DataChanges()) + retries + 2
    {
      hide Acked, Refused, Received, ByteOf, Conditions, Settled, Cut, Bus.DataChanges, Bus.Seen;
      ghost var sent, frames := 0, Seen().frames;
      ChangesSeen();
      AtRest(Seen());
      code, retries, sent := SendCommand(command, |command|);
      if code == SUCCESS {
        ReceiveData(recBuf, recBuf.Length);
        assert command[..|command|] == command && recBuf[..recBuf.Length] == recBuf[..];
        ChangesSeen();
        ReadConditions(frames, command[0], retries, command, recBuf[..]);
      }
    }
  }
}
