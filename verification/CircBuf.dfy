/** The overwriting ring buffer (u-boot/common/circbuf.c), against the sequence of bytes it stands for. */
module CircBuf {

  /** Where an index that has run at most one lap too far comes out. */
  function Wrap(x: nat, n: nat): nat {
    if x >= n then x - n else x
  }

  /** The bytes held: `size` of them from `top` on, around the end of the data. */
  function Held(data: seq<char>, top: nat, size: nat): (r: seq<char>)
    requires size <= |data| && (size > 0 ==> top < |data|)
    ensures |r| == size
  {
    seq(size, i requires 0 <= i < size => data[Wrap(top + i, |data|)])
  }

  /** The last `n` bytes, or all when there are fewer. */
  function Last<T>(s: seq<T>, n: nat): (r: seq<T>)
    ensures |r| == if |s| <= n then |s| else n
  {
    if |s| <= n then s else s[|s| - n..]
  }

  /** What one byte does to the bytes held: it goes to the end, and replaces the oldest when there is no room. */
  function Pushed(held: seq<char>, c: char, n: nat): seq<char>
    requires n > 0
  {
    if |held| < n then held + [c] else held[1..] + [c]
  }

  lemma LastStep(s: seq<char>, c: char, n: nat)
    requires n > 0
    ensures Last(s + [c], n) == Pushed(Last(s, n), c, n)
  {
  }

  lemma HeldPushed(data: seq<char>, top: nat, size: nat, c: char)
    requires top < |data| && size <= |data|
    ensures var n, p := |data|, Wrap(top + size, |data|);
            Pushed(Held(data, top, size), c, n) ==
            if size < n then Held(data[p := c], top, size + 1) else Held(data[p := c], Wrap(top + 1, n), n)
  {
    var n, p := |data|, Wrap(top + size, |data|);
    var after := if size < n then Held(data[p := c], top, size + 1) else Held(data[p := c], Wrap(top + 1, n), n);
    var before := Pushed(Held(data, top, size), c, n);
    forall i | 0 <= i < |before| ensures before[i] == after[i] {
      if size == n {
        var q := Wrap(Wrap(top + 1, n) + i, n);
        assert p == top && q == if i == n - 1 then p else Wrap(top + (i + 1), n);
        assert after[i] == data[p := c][q];
        if i < n - 1 { assert before[i] == Held(data, top, size)[i + 1] == data[q]; }
      } else {
        assert after[i] == data[p := c][Wrap(top + i, n)];
      }
    }
  }

  lemma HeldPopped(data: seq<char>, top: nat, size: nat)
    requires top < |data| && 0 < size <= |data|
    ensures Held(data, top, size)[0] == data[top]
    ensures Held(data, top, size)[1..] == Held(data, Wrap(top + 1, |data|), size - 1)
  {
    assert Held(data, top, size)[0] == data[Wrap(top + 0, |data|)];
    var rest, next := Held(data, top, size)[1..], Held(data, Wrap(top + 1, |data|), size - 1);
    forall i | 0 <= i < |rest| ensures rest[i] == next[i] {
      assert Wrap(Wrap(top + 1, |data|) + i, |data|) == Wrap(top + (i + 1), |data|);
      assert rest[i] == Held(data, top, size)[i + 1];
    }
    assert rest == next;
  }

  lemma WrapNext(p: nat, k: nat, n: nat)
    requires p < n && 0 < k <= n
    ensures Wrap(p + 1, n) == if p + 1 == n then 0 else p + 1
    ensures Wrap(Wrap(p + 1, n) + (k - 1), n) == Wrap(p + k, n)
  {
  }

  lemma WrapIsModulo(x: nat, n: nat)
    requires x < 2 * n
    ensures Wrap(x, n) == x % n
  {
    if x >= n { assert x == n * 1 + (x - n); }
  }

  class Circbuf {
    var size: nat
    var totalsize: nat
    var top: nat
    var tail: nat
    var data: array<char>

    ghost predicate Valid()
      reads this
    {
      && data.Length == totalsize && size <= totalsize
      && if totalsize == 0 then top == 0 && tail == 0 else top < totalsize && tail == Wrap(top + size, totalsize)
    }

    ghost function Contents(): seq<char>
      requires Valid()
      reads this, data
    {
      Held(data[..], top, size)
    }

    /** `buf_init`, where the allocation succeeds. */
    constructor (size: nat)
      ensures Valid() && fresh(data) && totalsize == size && Contents() == []
    {
      this.size, totalsize, top, tail := 0, size, 0, 0;
      data := new char[size];
    }

    /** `buf_push`: the buffer keeps the last `totalsize` bytes of what it held and what is pushed. */
    method Push(src: seq<char>, len: nat) returns (r: nat)
      requires Valid() && len <= |src| && (totalsize == 0 ==> len == 0)
      modifies this`size, this`top, this`tail, data
      ensures Valid() && r == len
      ensures Contents() == Last(old(Contents()) + src[..len], totalsize)
    {
      hide Held, Last, Pushed;
      var p, i := tail, 0;
      LastAll(Contents(), totalsize);
      while i < len
        invariant 0 <= i <= len && size <= totalsize && data.Length == totalsize
        invariant if totalsize == 0 then top == 0 && p == 0 else top < totalsize && p == Wrap(top + size, totalsize)
        invariant Held(data[..], top, size) == Last(old(Contents()) + src[..i], totalsize)
      {
        HeldPushed(data[..], top, size, src[i]);
        LastStep(old(Contents()) + src[..i], src[i], totalsize);
        assert old(Contents()) + src[..i] + [src[i]] == old(Contents()) + src[..i + 1];
        ghost var was := data[..];
        data[p] := src[i];
        assert data[..] == was[p := src[i]];
        p := p + 1;
        if p == totalsize { p := 0; }
        if size < totalsize {
          size := size + 1;
        } else {
          top := top + 1;
          if top == totalsize { top := 0; }
        }
        i := i + 1;
      }
      tail := p;
      return len;
    }

    /** `buf_pop`: the oldest bytes, as many as are wanted and there are. */
    method Pop(dest: array<char>, wanted: nat) returns (len: nat)
      requires Valid() && dest != data && (if wanted <= size then wanted else size) <= dest.Length
      modifies this`size, this`top, dest
      ensures Valid() && len == if wanted <= old(size) then wanted else old(size)
      ensures dest[..len] == old(Contents())[..len] && dest[len..] == old(dest[len..])
      ensures Contents() == old(Contents())[len..]
    {
      hide Held, Wrap;
      len := wanted;
      var p: nat, i: nat := top, 0;
      if len > size { len := size; }
      while i < len
        invariant 0 <= i <= len <= size == old(size) && data[..] == old(data[..])
        invariant totalsize > 0 ==> p < totalsize && Wrap(p + (size - i), totalsize) == tail
        invariant totalsize == 0 ==> p == 0
        invariant Held(data[..], p, size - i) == old(Contents())[i..]
        invariant dest[..i] == old(Contents())[..i] && dest[len..] == old(dest[len..])
      {
        HeldPopped(data[..], p, size - i);
        dest[i] := data[p];
        WrapNext(p, size - i, totalsize);
        p := p + 1;
        if p == totalsize { p := 0; }
        i := i + 1;
      }
      top := p;
      size := size - len;
    }
  }

  /** The tail is always where the contents end, counted around the buffer. */
  lemma TailPosition(b: Circbuf)
    requires b.Valid() && b.totalsize > 0
    ensures b.tail == (b.top + b.size) % b.totalsize
  {
    WrapIsModulo(b.top + b.size, b.totalsize);
  }

  lemma LastAll(s: seq<char>, n: nat)
    requires |s| <= n
    ensures Last(s + [], n) == s
  {
    assert s + [] == s;
  }

  // ---------------------------------------------------------------- runs

  datatype Op = Push(src: seq<char>) | Pop(len: nat)

  /** A buffer's contents together with everything pushed to it and popped from it so far. */
  datatype History = History(held: seq<char>, pushed: seq<char>, popped: seq<char>)

  /** The contents after one operation, as `Circbuf.Push` and `Circbuf.Pop` are proved to leave them. */
  function Step(h: History, op: Op, n: nat): History {
    match op
    case Push(src) => History(Last(h.held + src, n), h.pushed + src, h.popped)
    case Pop(len) =>
      var k := if len <= |h.held| then len else |h.held|;
      History(h.held[k..], h.pushed, h.popped + h.held[..k])
  }

  function Run(ops: seq<Op>, n: nat): History {
    if ops == [] then History([], [], []) else Step(Run(ops[..|ops| - 1], n), ops[|ops| - 1], n)
  }

  /** Whether some push of the run found too little room. */
  predicate Overflows(ops: seq<Op>, n: nat) {
    ops != [] && (Overflows(ops[..|ops| - 1], n) ||
                  match ops[|ops| - 1]
                  case Push(src) => |Run(ops[..|ops| - 1], n).held| + |src| > n
                  case Pop(_) => false)
  }

  lemma SuffixPushed(held: seq<char>, pushed: seq<char>, src: seq<char>, n: nat)
    requires |held| <= |pushed| && held == Last(pushed, |held|)
    ensures Last(held + src, n) == Last(pushed + src, |Last(held + src, n)|)
  {
    var rest := pushed[..|pushed| - |held|];
    assert pushed == rest + held;
    assert pushed + src == rest + (held + src);
  }

  lemma SuffixPopped(held: seq<char>, pushed: seq<char>, k: nat)
    requires k <= |held| <= |pushed| && held == Last(pushed, |held|)
    ensures held[k..] == Last(pushed, |held| - k)
  {
    assert pushed == pushed[..|pushed| - |held|] + held;
  }

  /** After any run: at most `n` bytes are held, and they are the last bytes ever pushed. */
  lemma {:induction false} HeldIsSuffix(ops: seq<Op>, n: nat)
    ensures var h := Run(ops, n); |h.held| <= n && |h.held| <= |h.pushed| && h.held == Last(h.pushed, |h.held|)
  {
    if ops != [] {
      HeldIsSuffix(ops[..|ops| - 1], n);
      var h, op := Run(ops[..|ops| - 1], n), ops[|ops| - 1];
      match op
      case Push(src) => SuffixPushed(h.held, h.pushed, src, n);
      case Pop(len) => SuffixPopped(h.held, h.pushed, if len <= |h.held| then len else |h.held|);
    }
  }

  /** Nothing is lost, added or reordered exactly when no push overflowed: what was popped, and then what is
      held, is everything that was pushed. */
  lemma {:induction false} LosslessIff(ops: seq<Op>, n: nat)
    ensures var h := Run(ops, n);
            && |h.popped| + |h.held| <= |h.pushed|
            && (h.popped + h.held == h.pushed <==> !Overflows(ops, n))
            && (Overflows(ops, n) ==> |h.popped| + |h.held| < |h.pushed|)
  {
    if ops != [] {
      LosslessIff(ops[..|ops| - 1], n);
      var h, op := Run(ops[..|ops| - 1], n), ops[|ops| - 1];
      match op
      case Push(src) =>
        assert h.popped + (h.held + src) == (h.popped + h.held) + src;
      case Pop(len) =>
        var k := if len <= |h.held| then len else |h.held|;
        assert h.popped + h.held[..k] + h.held[k..] == h.popped + h.held;
    }
  }
}
