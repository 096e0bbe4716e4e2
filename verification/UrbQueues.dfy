/** The transmit queues of a USB endpoint (qi-usb-lcd/src/usbdcore.c): intrusive circular rings of urb
    links, and the completion handler that moves urbs between the active slot, `tx` and `done`. */
module UrbQueues {
  import opened Arithmetic

  // ---------------------------------------------------------------- rings

  /** `struct urb_link`.  `surround` plays the part of `p2surround`: the urb the link is embedded in, or
      null for a list head. */
  class UrbLink {
    var next: UrbLink?
    var prev: UrbLink?
    var surround: Urb?

    constructor ()
      ensures next == null && prev == null && surround == null
    {
      next, prev, surround := null, null, null;
    }
  }

  /** `struct urb`, as far as the queues look at it. */
  class Urb {
    const link: UrbLink
    var actualLength: nat

    constructor (link: UrbLink)
      ensures this.link == link && actualLength == 0
    {
      this.link, actualLength := link, 0;
    }
  }

  /** The links of `s`, in this order, form one circular doubly linked ring. */
  ghost predicate Ring(s: seq<UrbLink>)
    reads s
  {
    && |s| > 0
    && (forall i, j :: 0 <= i < j < |s| ==> s[i] != s[j])
    && (forall i {:trigger s[i].next} :: 0 <= i < |s| - 1 ==> s[i].next == s[i + 1])
    && (forall i {:trigger s[i].prev} :: 1 <= i < |s| ==> s[i].prev == s[i - 1])
    && s[|s| - 1].next == s[0]
    && s[0].prev == s[|s| - 1]
  }

  ghost predicate Apart(s: seq<UrbLink>, t: seq<UrbLink>) {
    forall i, j :: 0 <= i < |s| && 0 <= j < |t| ==> s[i] != t[j]
  }

  method UrbLinkInit(ul: UrbLink?)
    modifies (if ul == null then {} else {ul})`next, (if ul == null then {} else {ul})`prev
    ensures ul != null ==> Ring([ul])
  {
    if ul != null {
      ul.prev, ul.next := ul, ul;
    }
  }

  /** Detaching leaves the rest of the ring in order, and makes the urb's link a ring of its own. */
  method UrbDetach(urb: Urb?, ghost s: seq<UrbLink>, ghost k: nat)
    requires urb != null ==> Ring(s) && k < |s| && s[k] == urb.link
    modifies (set l | l in s)`next, (set l | l in s)`prev
    ensures urb != null ==> Ring([urb.link])
    ensures urb != null && |s| > 1 ==> Ring(s[..k] + s[k + 1..])
  {
    if urb != null {
      var ul := urb.link;
      ul.next.prev := ul.prev;
      ul.prev.next := ul.next;
      UrbLinkInit(ul);
    }
  }

  /** Appending a whole ring `t`, headed by the urb's link, to the list `s`: one ring, the old list first
      and then all of `t` in its own order. */
  method UrbAppend(hd: UrbLink?, urb: Urb?, ghost s: seq<UrbLink>, ghost t: seq<UrbLink>)
    requires hd != null && urb != null ==>
               Ring(s) && s[0] == hd && Ring(t) && t[0] == urb.link && Apart(s, t)
    modifies (set l | l in s + t)`next, (set l | l in s + t)`prev
    ensures hd != null && urb != null ==> Ring(s + t)
  {
    if hd != null && urb != null {
      var link := urb.link;
      var pul := hd.prev;
      link.prev.next := hd;
      hd.prev := link.prev;
      link.prev := pul;
      pul.next := link;
    }
  }

  // ---------------------------------------------------------------- lists of urbs

  function Links(q: seq<Urb>): (r: seq<UrbLink>)
    ensures |r| == |q| && forall i :: 0 <= i < |q| ==> r[i] == q[i].link
  {
    seq(|q|, i requires 0 <= i < |q| => q[i].link)
  }

  function Chain(hd: UrbLink, q: seq<Urb>): seq<UrbLink> { [hd] + Links(q) }

  /** `hd` heads a list that holds exactly the urbs `q`, in this order; `ls` are its links, head included. */
  ghost predicate IsList(hd: UrbLink, q: seq<Urb>, ls: set<UrbLink>)
    reads ls
  {
    && ls == (set l | l in Chain(hd, q))
    && Ring(Chain(hd, q))
    && forall i :: 0 <= i < |q| ==> q[i].link in ls && q[i].link.surround == q[i]
  }

  /** The urb is in no list: its link is a ring of its own. */
  ghost predicate Alone(urb: Urb)
    reads urb.link
  {
    Ring([urb.link]) && urb.link.surround == urb
  }

  lemma ChainTail(hd: UrbLink, q: seq<Urb>, ls: set<UrbLink>)
    requires q != [] && ls == (set l | l in Chain(hd, q))
    requires Ring(Chain(hd, q))
    ensures Chain(hd, q)[..1] + Chain(hd, q)[2..] == Chain(hd, q[1..])
    ensures ls - {q[0].link} == (set l | l in Chain(hd, q[1..]))
    ensures Chain(hd, q)[1] == q[0].link && q[0].link in ls
  {
    var c, d := Chain(hd, q), Chain(hd, q[1..]);
    assert c[..1] + c[2..] == d;
    assert c == c[..1] + [c[1]] + c[2..];
  }

  lemma ChainEnd(hd: UrbLink, q: seq<Urb>, urb: Urb)
    ensures Chain(hd, q) + [urb.link] == Chain(hd, q + [urb])
  {
    assert Links(q + [urb]) == Links(q) + [urb.link];
  }

  method FirstUrbLink(hd: UrbLink?, ghost s: seq<UrbLink>) returns (nx: UrbLink?)
    requires hd != null ==> Ring(s) && s[0] == hd
    ensures hd == null || |s| == 1 ==> nx == null
    ensures hd != null && |s| > 1 ==> nx == s[1]
  {
    if hd != null {
      nx := hd.next;
      if nx != null && nx != hd { return nx; }
    }
    return null;
  }

  method FirstUrb(hd: UrbLink?, ghost q: seq<Urb>, ghost ls: set<UrbLink>) returns (urb: Urb?)
    requires hd != null ==> IsList(hd, q, ls)
    ensures hd == null || q == [] ==> urb == null
    ensures hd != null && q != [] ==> urb == q[0]
  {
    var nx := FirstUrbLink(hd, if hd == null then [] else Chain(hd, q));
    if nx == null { return null; }
    return nx.surround;
  }

  /** Dequeue: the first urb leaves, the others stay in order. */
  method FirstUrbDetached(hd: UrbLink?, ghost q: seq<Urb>, ghost ls: set<UrbLink>) returns (urb: Urb?)
    requires hd != null ==> IsList(hd, q, ls)
    modifies ls`next, ls`prev
    ensures hd == null || q == [] ==> urb == null
    ensures hd != null && q == [] ==> IsList(hd, q, ls)
    ensures hd != null && q != [] ==>
              urb == q[0] && Alone(urb) && urb.link in ls && IsList(hd, q[1..], ls - {urb.link})
  {
    hide Ring;
    urb := FirstUrb(hd, q, ls);
    if urb != null {
      ChainTail(hd, q, ls);
      UrbDetach(urb, Chain(hd, q), 1);
    }
  }

  /** Enqueue: `urb_append` of an urb that is in no list. */
  method Append(hd: UrbLink, urb: Urb, ghost q: seq<Urb>, ghost ls: set<UrbLink>)
    requires IsList(hd, q, ls) && Alone(urb) && urb.link !in ls
    modifies (ls + {urb.link})`next, (ls + {urb.link})`prev
    ensures IsList(hd, q + [urb], ls + {urb.link})
  {
    hide Ring;
    ChainEnd(hd, q, urb);
    UrbAppend(hd, urb, Chain(hd, q), [urb.link]);
  }

  method Detach(urb: Urb)
    requires Alone(urb)
    modifies urb.link`next, urb.link`prev
    ensures Alone(urb)
  {
    UrbDetach(urb, [urb.link], 0);
  }

  // ---------------------------------------------------------------- specification of the transmit side

  /** What an endpoint's transmit side holds: the active urb, and the two lists in order. */
  datatype Queues<+T> = Queues(active: Option<T>, tx: seq<T>, done: seq<T>)

  /** A transfer completed: the active urb retires to the end of `done`; the next one comes from the
      front of `tx`, or, if nothing waits there, from the front of `done`. */
  function Completed<T>(q: Queues<T>): Queues<T> {
    if q.active.None? then q
    else
      var done := q.done + [q.active.value];
      if q.tx != [] then Queues(Some(q.tx[0]), q.tx[1..], done)
      else Queues(Some(done[0]), [], done[1..])
  }

  /** The test of the source: an unsigned difference that is `<= 0`, that is, zero. */
  predicate Finished(actualLength: nat, sent: int) { (actualLength - sent) % TWO32 <= 0 }

  // ---------------------------------------------------------------- the endpoint

  /** `struct usb_endpoint_instance`, transmit side. */
  class Endpoint {
    const tx: UrbLink
    const done: UrbLink
    var txUrb: Urb?
    var txQueue: int
    var sent: int
    var last: int
    ghost var txList: seq<Urb>
    ghost var doneList: seq<Urb>
    ghost var txLinks: set<UrbLink>
    ghost var doneLinks: set<UrbLink>

    ghost function Footprint(): set<UrbLink>
      reads this
    {
      txLinks + doneLinks + (if txUrb == null then {} else {txUrb.link})
    }

    ghost predicate Lists()
      reads this, txLinks, doneLinks
    {
      && IsList(tx, txList, txLinks) && IsList(done, doneList, doneLinks) && txLinks !! doneLinks
      && txQueue == |txList|
    }

    ghost predicate Valid()
      reads this, Footprint()
    {
      && Lists()
      && (txUrb != null ==> Alone(txUrb) && txUrb.link !in txLinks && txUrb.link !in doneLinks)
    }

    ghost function View(): Queues<Urb>
      reads this
    {
      if txUrb == null then Queues(None, txList, doneList)
      else var active: Urb := txUrb; Queues(Some(active), txList, doneList)
    }

    constructor (tx: UrbLink, done: UrbLink, urb: Urb)
      requires Ring([tx]) && Ring([done]) && Alone(urb)
      requires tx != done && urb.link != tx && urb.link != done
      ensures Valid() && View() == Queues(Some(urb), [], []) && sent == 0 && last == 0
      ensures this.tx == tx && this.done == done
    {
      this.tx, this.done, txUrb := tx, done, urb;
      txQueue, sent, last := 0, 0, 0;
      txList, doneList, txLinks, doneLinks := [], [], {tx}, {done};
      new;
      assert Chain(tx, []) == [tx] && Chain(done, []) == [done];
    }
  }

  /** The queueing half of a transmit request: `urb_append` to `tx`, and the queue counter. */
  method Submit(endpoint: Endpoint, urb: Urb)
    requires endpoint.Valid() && Alone(urb) && urb.link !in endpoint.Footprint()
    modifies endpoint`txQueue, endpoint`txList, endpoint`txLinks
    modifies (endpoint.txLinks + {urb.link})`next, (endpoint.txLinks + {urb.link})`prev
    ensures endpoint.Valid()
    ensures endpoint.View() == old(endpoint.View()).(tx := old(endpoint.View()).tx + [urb])
  {
    hide Ring, IsList, Alone;
    Append(endpoint.tx, urb, endpoint.txList, endpoint.txLinks);
    endpoint.txList := endpoint.txList + [urb];
    endpoint.txLinks := endpoint.txLinks + {urb.link};
    endpoint.txQueue := endpoint.txQueue + 1;
  }

  /** The choice of the next urb, once the finished one is in `done`. */
  method NextUrb(endpoint: Endpoint)
    requires endpoint.Lists() && endpoint.doneList != []
    modifies endpoint`txUrb, endpoint`txQueue
    modifies endpoint`txList, endpoint`doneList, endpoint`txLinks, endpoint`doneLinks
    modifies (endpoint.txLinks + endpoint.doneLinks)`next, (endpoint.txLinks + endpoint.doneLinks)`prev
    ensures endpoint.Valid() && endpoint.txUrb != null
    ensures if old(endpoint.txList) != []
            then endpoint.txUrb == old(endpoint.txList)[0] && endpoint.txList == old(endpoint.txList)[1..] &&
                 endpoint.doneList == old(endpoint.doneList)
            else endpoint.txUrb == old(endpoint.doneList)[0] && endpoint.txList == [] &&
                 endpoint.doneList == old(endpoint.doneList)[1..]
  {
    hide Ring, IsList, Alone;
    endpoint.txUrb := FirstUrbDetached(endpoint.tx, endpoint.txList, endpoint.txLinks);
    if endpoint.txUrb != null {
      endpoint.txLinks := endpoint.txLinks - {endpoint.txUrb.link};
      endpoint.txList := endpoint.txList[1..];
      endpoint.txQueue := endpoint.txQueue - 1;
    }
    if endpoint.txUrb == null {
      endpoint.txUrb := FirstUrbDetached(endpoint.done, endpoint.doneList, endpoint.doneLinks);
      endpoint.doneLinks := endpoint.doneLinks - {endpoint.txUrb.link};
      endpoint.doneList := endpoint.doneList[1..];
    }
    if endpoint.txUrb == null {
      // The allocation of a fresh urb: never reached, `done` has just received an element.
      assert false;
    }
  }

  /** The urb in the active slot has been sent: remove it, save it for re-use, and take the next one. */
  method FinishUrb(endpoint: Endpoint, urb: Urb)
    requires endpoint.Valid() && endpoint.txUrb == urb
    modifies endpoint`txUrb, endpoint`txQueue
    modifies endpoint`txList, endpoint`doneList, endpoint`txLinks, endpoint`doneLinks
    modifies endpoint.Footprint()`next, endpoint.Footprint()`prev
    ensures endpoint.Valid() && endpoint.txUrb != null
    ensures endpoint.View() == Completed(old(endpoint.View()))
  {
    hide Ring, IsList, Alone;
    Detach(urb);
    Append(endpoint.done, urb, endpoint.doneList, endpoint.doneLinks);
    endpoint.doneList := endpoint.doneList + [urb];
    endpoint.doneLinks := endpoint.doneLinks + {urb.link};
    NextUrb(endpoint);
  }

  /** `usbd_tx_complete`. */
  method UsbdTxComplete(endpoint: Endpoint?)
    requires endpoint != null ==> endpoint.Valid()
    modifies if endpoint == null then {} else {endpoint}
    modifies (if endpoint == null then {} else endpoint.Footprint())`next
    modifies (if endpoint == null then {} else endpoint.Footprint())`prev
    modifies (if endpoint == null || endpoint.txUrb == null then {} else {endpoint.txUrb})`actualLength
    ensures endpoint != null ==> endpoint.Valid()
    ensures endpoint != null && old(endpoint.txUrb) == null ==>
              endpoint.View() == old(endpoint.View()) && endpoint.sent == old(endpoint.sent) &&
              endpoint.last == old(endpoint.last)
    ensures endpoint != null && old(endpoint.txUrb) != null ==>
              var sent := Int32(old(endpoint.sent) + old(endpoint.last));
              && endpoint.txUrb != null
              && endpoint.last == 0
              && if Finished(old(endpoint.txUrb.actualLength), sent)
                 then endpoint.View() == Completed(old(endpoint.View())) && endpoint.sent == 0 &&
                      old(endpoint.txUrb).actualLength == 0
                 else endpoint.View() == old(endpoint.View()) && endpoint.sent == sent &&
                      endpoint.txUrb.actualLength == old(endpoint.txUrb.actualLength)
  {
    hide Ring, IsList, Alone, Completed, Int32, Finished;
    if endpoint != null {
      var urb := endpoint.txUrb;
      if urb != null {
        var sent := endpoint.last;
        endpoint.sent := Int32(endpoint.sent + sent);
        endpoint.last := endpoint.last - sent;
        if Finished(endpoint.txUrb.actualLength, endpoint.sent) {
          urb.actualLength := 0;
          endpoint.sent := 0;
          endpoint.last := 0;

          FinishUrb(endpoint, urb);
        }
      }
    }
  }

  // ---------------------------------------------------------------- whole runs

  /** The transmit side with what the completion test looks at: the length of every urb known to the endpoint,
      and the bytes sent of the active one. */
  datatype Transmit<T(==)> = Transmit(queues: Queues<T>, lengths: map<T, nat>, sent: int)

  /** What can happen to it: an urb of some length is queued, the driver fills the active urb, or a packet of some
      bytes has been sent and the completion handler runs. */
  datatype Event<T> = Queue(urb: T, length: nat) | Fill(length: nat) | Packet(bytes: int)

  function LengthOf<T>(lengths: map<T, nat>, urb: T): nat {
    if urb in lengths then lengths[urb] else 0
  }

  /** Whether the event is a packet that ends the transfer of the active urb. */
  predicate Completes<T(==)>(s: Transmit<T>, e: Event<T>) {
    e.Packet? && s.queues.active.Some? &&
    Finished(LengthOf(s.lengths, s.queues.active.value), Int32(s.sent + e.bytes))
  }

  function Step<T(==)>(s: Transmit<T>, e: Event<T>): Transmit<T> {
    match e
    case Queue(urb, length) => s.(queues := s.queues.(tx := s.queues.tx + [urb]), lengths := s.lengths[urb := length])
    case Fill(length) =>
      if s.queues.active.None? then s else s.(lengths := s.lengths[s.queues.active.value := length])
    case Packet(bytes) =>
      if s.queues.active.None? then s
      else if Completes(s, e) then Transmit(Completed(s.queues), s.lengths[s.queues.active.value := 0], 0)
      else s.(sent := Int32(s.sent + bytes))
  }

  function Run<T(==)>(s: Transmit<T>, es: seq<Event<T>>): Transmit<T>
    decreases |es|
  {
    if es == [] then s else Run(Step(s, es[0]), es[1..])
  }

  /** The urbs queued by a run, in order. */
  function Queued<T>(es: seq<Event<T>>): seq<T> {
    if es == [] then [] else (if es[0].Queue? then [es[0].urb] else []) + Queued(es[1..])
  }

  /** The urbs that leave `tx` for the active slot, in order. */
  function Served<T(==)>(s: Transmit<T>, es: seq<Event<T>>): seq<T>
    decreases |es|
  {
    if es == [] then []
    else (if Completes(s, es[0]) && s.queues.tx != [] then [s.queues.tx[0]] else []) + Served(Step(s, es[0]), es[1..])
  }

  /** The urbs that retire to `done`, in order, and those taken from it again. */
  function Retired<T(==)>(s: Transmit<T>, es: seq<Event<T>>): seq<T>
    decreases |es|
  {
    if es == [] then []
    else (if Completes(s, es[0]) then [s.queues.active.value] else []) + Retired(Step(s, es[0]), es[1..])
  }

  function Reused<T(==)>(s: Transmit<T>, es: seq<Event<T>>): seq<T>
    decreases |es|
  {
    if es == [] then []
    else (if Completes(s, es[0]) && s.queues.tx == [] then [Completed(s.queues).active.value] else []) +
         Reused(Step(s, es[0]), es[1..])
  }

  ghost function All<T>(q: Queues<T>): multiset<T> {
    (if q.active.Some? then multiset{q.active.value} else multiset{}) + multiset(q.tx) + multiset(q.done)
  }

  lemma CompletedKeepsAll<T>(q: Queues<T>)
    ensures All(Completed(q)) == All(q)
  {
    if q.active.Some? {
      var done := q.done + [q.active.value];
      assert multiset(done) == multiset(q.done) + multiset{q.active.value};
      if q.tx != [] { FirstAndRest(q.tx); } else { FirstAndRest(done); }
    }
  }

  lemma FirstAndRest<T>(s: seq<T>)
    requires s != []
    ensures multiset(s) == multiset{s[0]} + multiset(s[1..])
  {
    assert s == [s[0]] + s[1..];
  }

  lemma StepKeepsAll<T>(s: Transmit<T>, e: Event<T>)
    ensures All(Step(s, e).queues) == All(s.queues) + if e.Queue? then multiset{e.urb} else multiset{}
  {
    hide Completed, Finished, Int32, LengthOf;
    CompletedKeepsAll(s.queues);
  }

  lemma NothingQueued<T>()
    ensures Queued<T>([]) == []
  {
  }

  lemma QueuedFirst<T>(es: seq<Event<T>>)
    requires es != []
    ensures multiset(Queued(es)) ==
            (if es[0].Queue? then multiset{es[0].urb} else multiset{}) + multiset(Queued(es[1..]))
  {
  }

  /** Conservation: whatever the run, no urb is lost, duplicated or invented. */
  lemma {:induction false} Conservation<T>(s: Transmit<T>, es: seq<Event<T>>)
    ensures All(Run(s, es).queues) == All(s.queues) + multiset(Queued(es))
    decreases |es|
  {
    hide Step, All, Queued;
    if es == [] {
      NothingQueued<T>();
    } else {
      Conservation(Step(s, es[0]), es[1..]);
      StepKeepsAll(s, es[0]);
      QueuedFirst(es);
    }
  }

  lemma CompletedActive<T>(q: Queues<T>)
    ensures q.active.Some? ==> Completed(q).active.Some?
  {
  }

  /** The endpoint never loses its active urb. */
  lemma {:induction false} NeverIdle<T>(s: Transmit<T>, es: seq<Event<T>>)
    requires s.queues.active.Some?
    ensures Run(s, es).queues.active.Some?
    decreases |es|
  {
    hide Completed, Finished, Int32, LengthOf;
    CompletedActive(s.queues);
    if es != [] { NeverIdle(Step(s, es[0]), es[1..]); }
  }

  /** `tx` after one event: what leaves it and what is left is what was there and what was queued. */
  lemma TxStep<T>(s: Transmit<T>, e: Event<T>)
    ensures (if Completes(s, e) && s.queues.tx != [] then [s.queues.tx[0]] else []) + Step(s, e).queues.tx ==
            s.queues.tx + if e.Queue? then [e.urb] else []
  {
    hide Finished, Int32, LengthOf;
  }

  lemma DoneStep<T>(s: Transmit<T>, e: Event<T>)
    ensures (if Completes(s, e) && s.queues.tx == [] then [Completed(s.queues).active.value] else []) +
              Step(s, e).queues.done ==
            s.queues.done + if Completes(s, e) then [s.queues.active.value] else []
  {
    hide Finished, Int32, LengthOf;
    if Completes(s, e) && s.queues.tx == [] {
      var d := s.queues.done + [s.queues.active.value];
      assert d == [d[0]] + d[1..];
    }
  }

  lemma Swap<T>(a: seq<T>, b: seq<T>, c: seq<T>, d: seq<T>, e: seq<T>, f: seq<T>)
    requires b + c == d + e && a + d == f
    ensures (a + b) + c == f + e
  {
    assert (a + b) + c == a + (b + c);
    assert a + (d + e) == (a + d) + e;
  }

  lemma Link<T>(a: seq<T>, b: seq<T>, c: seq<T>)
    ensures (a + b) + c == a + (b + c)
  {
  }

  /** `tx` is first in, first out: what was served, then what still waits, is what was queued, in order. */
  lemma {:induction false} TxIsFifo<T>(s: Transmit<T>, es: seq<Event<T>>)
    ensures Served(s, es) + Run(s, es).queues.tx == s.queues.tx + Queued(es)
    decreases |es|
  {
    hide Completes, Step;
    if es != [] {
      var s', e := Step(s, es[0]), es[0];
      TxIsFifo(s', es[1..]);
      TxStep(s, e);
      var left := if Completes(s, e) && s.queues.tx != [] then [s.queues.tx[0]] else [];
      var came := if e.Queue? then [e.urb] else [];
      Swap(left, Served(s', es[1..]), Run(s', es[1..]).queues.tx, s'.queues.tx, Queued(es[1..]), s.queues.tx + came);
      Link(s.queues.tx, came, Queued(es[1..]));
    }
  }

  /** So is `done`: urbs are reused in the order they were sent. */
  lemma {:induction false} DoneIsFifo<T>(s: Transmit<T>, es: seq<Event<T>>)
    ensures Reused(s, es) + Run(s, es).queues.done == s.queues.done + Retired(s, es)
    decreases |es|
  {
    hide Finished, Int32, LengthOf, Step;
    if es != [] {
      var s', e := Step(s, es[0]), es[0];
      DoneIsFifo(s', es[1..]);
      DoneStep(s, e);
      var left := if Completes(s, e) && s.queues.tx == [] then [Completed(s.queues).active.value] else [];
      var came := if Completes(s, e) then [s.queues.active.value] else [];
      Swap(left, Reused(s', es[1..]), Run(s', es[1..]).queues.done, s'.queues.done, Retired(s', es[1..]),
           s.queues.done + came);
      Link(s.queues.done, came, Retired(s', es[1..]));
    }
  }

  // ---------------------------------------------------------------- when a transfer counts as complete

  function Packets<T>(sizes: seq<int>): (r: seq<Event<T>>)
    ensures |r| == |sizes|
  {
    seq(|sizes|, i requires 0 <= i < |sizes| => Packet(sizes[i]))
  }

  function Sum(sizes: seq<int>): int {
    if sizes == [] then 0 else Sum(sizes[..|sizes| - 1]) + sizes[|sizes| - 1]
  }

  /** The bytes sent equal the length, as far as 32 bits can tell. */
  predicate Reached(length: nat, sizes: seq<int>) {
    (Sum(sizes) - length) % TWO32 == 0
  }

  /** No beginning of the packets reaches the length. */
  ghost predicate Pending(length: nat, sizes: seq<int>) {
    forall k :: 0 < k <= |sizes| ==> !Reached(length, sizes[..k])
  }

  /** The test of the source, when the counter agrees with the sum modulo 2^32. */
  lemma FinishedIff(length: nat, sent: int, sizes: seq<int>)
    requires (sent - Sum(sizes)) % TWO32 == 0
    ensures Finished(length, sent) <==> Reached(length, sizes)
  {
    hide Sum;
  }

  lemma SentAgrees(sum: int, bytes: int)
    ensures Int32(Int32(sum) + bytes) == Int32(sum + bytes)
    ensures (Int32(sum) - sum) % TWO32 == 0
  {
  }

  lemma {:induction false} RunNext<T>(s: Transmit<T>, es: seq<Event<T>>, e: Event<T>)
    ensures Run(s, es + [e]) == Step(Run(s, es), e)
    decreases |es|
  {
    hide Step;
    if es == [] {
      assert es + [e] == [e] && [e][1..] == [];
    } else {
      RunNext(Step(s, es[0]), es[1..], e);
      assert (es + [e])[1..] == es[1..] + [e];
    }
  }

  lemma PacketsNext<T>(sizes: seq<int>, bytes: int)
    ensures Packets<T>(sizes + [bytes]) == Packets(sizes) + [Packet(bytes)]
    ensures Sum(sizes + [bytes]) == Sum(sizes) + bytes
  {
    assert (sizes + [bytes])[..|sizes|] == sizes;
  }

  lemma PendingNext(length: nat, sizes: seq<int>, bytes: int)
    ensures Pending(length, sizes + [bytes]) <==> Pending(length, sizes) && !Reached(length, sizes + [bytes])
  {
    hide Reached;
    var all := sizes + [bytes];
    assert forall k :: 0 < k <= |sizes| ==> all[..k] == sizes[..k];
    assert all[..|all|] == all;
    if Pending(length, all) {
      forall k | 0 < k <= |sizes| ensures !Reached(length, sizes[..k]) { assert !Reached(length, all[..k]); }
    }
  }

  /** As long as no beginning of the packets reaches the length of the active urb, nothing moves, and the counter
      is the sum of the packets, cut to 32 bits. */
  lemma {:induction false} SentIsSum<T>(s: Transmit<T>, sizes: seq<int>)
    requires s.queues.active.Some? && s.sent == 0
    requires Pending(LengthOf(s.lengths, s.queues.active.value), sizes)
    ensures Run(s, Packets(sizes)) == s.(sent := Int32(Sum(sizes)))
    decreases |sizes|
  {
    hide Reached, Finished, Int32, LengthOf, Run;
    if sizes == [] {
      NoPackets(s);
    } else {
      var length, init, last := LengthOf(s.lengths, s.queues.active.value), sizes[..|sizes| - 1], sizes[|sizes| - 1];
      assert sizes == init + [last];
      PendingNext(length, init, last);
      SentIsSum(s, init);
      PacketsNext<T>(init, last);
      RunNext(s, Packets(init), Packet(last));
      SentAgrees(Sum(init), last);
      SentAgrees(Sum(sizes), 0);
      FinishedIff(length, Int32(Sum(sizes)), sizes);
    }
  }

  lemma NoPackets<T>(s: Transmit<T>)
    ensures Packets<T>([]) == [] && Run(s, []) == s && Int32(Sum([])) == 0
  {
  }

  /** The first completion comes with the first packet at which the sum reaches the length modulo 2^32: then, and
      not before, the urb retires, its length and the counter are cleared, and the next transfer starts from
      nothing.  Overshooting the length, even by one byte, is not noticed. */
  lemma CompletesExactly<T>(s: Transmit<T>, sizes: seq<int>, last: int)
    requires s.queues.active.Some? && s.sent == 0
    requires Pending(LengthOf(s.lengths, s.queues.active.value), sizes)
    ensures var urb := s.queues.active.value;
            var r := Run(s, Packets(sizes + [last]));
            if Reached(LengthOf(s.lengths, urb), sizes + [last])
            then r == Transmit(Completed(s.queues), s.lengths[urb := 0], 0)
            else r == s.(sent := Int32(Sum(sizes) + last))
  {
    hide Reached, Finished, Int32, LengthOf, Run, Completed;
    var length := LengthOf(s.lengths, s.queues.active.value);
    SentIsSum(s, sizes);
    PacketsNext<T>(sizes, last);
    RunNext(s, Packets(sizes), Packet(last));
    SentAgrees(Sum(sizes), last);
    SentAgrees(Sum(sizes) + last, 0);
    FinishedIff(length, Int32(Sum(sizes) + last), sizes + [last]);
  }

  /** For transfers that fit 32 bits and never overshoot, "modulo 2^32" can be dropped. */
  lemma ReachedBelow(length: nat, sizes: seq<int>)
    requires 0 <= Sum(sizes) < TWO32 && length < TWO32
    ensures Reached(length, sizes) <==> Sum(sizes) == length
  {
    hide Sum;
  }

  /** Packets that go past the length without ending at it, for instance 65 bytes of 64 and then more: the urb stays
      active, whatever follows within 4 GB. */
  lemma OvershootUnnoticed<T>(s: Transmit<T>, sizes: seq<int>)
    requires s.queues.active.Some? && s.sent == 0 && LengthOf(s.lengths, s.queues.active.value) < TWO32
    requires forall k :: 0 < k <= |sizes| ==>
               0 <= Sum(sizes[..k]) < TWO32 && Sum(sizes[..k]) != LengthOf(s.lengths, s.queues.active.value)
    ensures Run(s, Packets(sizes)) == s.(sent := Int32(Sum(sizes)))
  {
    hide Reached, LengthOf, Run, Sum;
    var length := LengthOf(s.lengths, s.queues.active.value);
    forall k | 0 < k <= |sizes| ensures !Reached(length, sizes[..k]) { ReachedBelow(length, sizes[..k]); }
    SentIsSum(s, sizes);
  }

  /** The example: 64 bytes are due, and one packet has 65. */
  lemma OneByteTooMany<T>(s: Transmit<T>)
    requires s.queues.active.Some? && s.sent == 0 && LengthOf(s.lengths, s.queues.active.value) == 64
    ensures Run(s, Packets([65])).queues == s.queues
  {
    hide LengthOf, Run;
    assert [65][..1] == [65] && [65][..0] == [];
    assert Sum([65]) == 65;
    OvershootUnnoticed(s, [65]);
  }

  /** A whole transfer: the driver fills the active urb up to some length, and then packets go out.  Whatever its
      length was before, the urb retires with the first packet at which their sum is this length modulo 2^32. */
  lemma FilledTransfer<T>(s: Transmit<T>, length: nat, sizes: seq<int>, last: int)
    requires s.queues.active.Some? && s.sent == 0 && Pending(length, sizes)
    ensures var urb := s.queues.active.value;
            Run(s, [Fill(length)] + Packets(sizes + [last])) ==
            if Reached(length, sizes + [last])
            then Transmit(Completed(s.queues), s.lengths[urb := 0], 0)
            else Transmit(s.queues, s.lengths[urb := length], Int32(Sum(sizes) + last))
  {
    hide Reached, Pending, Int32, Run, Completed, Sum;
    var urb := s.queues.active.value;
    var filled := s.(lengths := s.lengths[urb := length]);
    RunFirst(s, Fill(length), Packets(sizes + [last]));
    assert LengthOf(filled.lengths, urb) == length;
    CompletesExactly(filled, sizes, last);
    assert s.lengths[urb := length][urb := 0] == s.lengths[urb := 0];
  }

  lemma RunFirst<T>(s: Transmit<T>, e: Event<T>, es: seq<Event<T>>)
    ensures Run(s, [e] + es) == Run(Step(s, e), es)
  {
    hide Step;
    assert ([e] + es)[1..] == es;
  }

  // ---------------------------------------------------------------- the handler makes these steps

  /** The abstract state of an endpoint whose urbs are all among `urbs`. */
  ghost function State(endpoint: Endpoint, urbs: set<Urb>): Transmit<Urb>
    reads endpoint, urbs
  {
    Transmit(endpoint.View(), map u | u in urbs :: u.actualLength, endpoint.sent)
  }

  predicate Among<T(==)>(q: Queues<T>, urbs: set<T>) {
    (forall u <- q.tx + q.done :: u in urbs) && (q.active.Some? ==> q.active.value in urbs)
  }

  lemma CompletedAmong<T>(q: Queues<T>, urbs: set<T>)
    requires Among(q, urbs)
    ensures Among(Completed(q), urbs)
  {
    if q.active.Some? {
      var done := q.done + [q.active.value];
      assert forall u <- done :: u in urbs;
      if q.tx != [] { assert q.tx[0] in q.tx + q.done; } else { assert done[0] in done; }
    }
  }

  lemma ActiveAmong<T>(q: Queues<T>, urbs: set<T>)
    requires Among(q, urbs) && q.active.Some?
    ensures q.active.value in urbs
  {
  }

  ghost predicate Knows(endpoint: Endpoint, urbs: set<Urb>)
    reads endpoint
  {
    Among(endpoint.View(), urbs)
  }

  /** A packet has gone out: the driver notes its size, and `usbd_tx_complete` runs. */
  method SendPacket(endpoint: Endpoint, bytes: int, ghost urbs: set<Urb>)
    requires endpoint.Valid() && Knows(endpoint, urbs)
    modifies endpoint
    modifies endpoint.Footprint()`next, endpoint.Footprint()`prev
    modifies (if endpoint.txUrb == null then {} else {endpoint.txUrb})`actualLength
    ensures endpoint.Valid() && Knows(endpoint, urbs)
    ensures State(endpoint, urbs) == Step(old(State(endpoint, urbs)), Packet(bytes))
  {
    hide Ring, IsList, Alone, Int32, Finished, Completed, Among;
    CompletedAmong(endpoint.View(), urbs);
    if endpoint.txUrb != null { ActiveAmong(endpoint.View(), urbs); }
    endpoint.last := bytes;
    UsbdTxComplete(endpoint);
  }

  /** The terminal driver adds bytes to the active urb. */
  method FillUrb(endpoint: Endpoint, popped: nat, ghost urbs: set<Urb>)
    requires endpoint.Valid() && Knows(endpoint, urbs)
    modifies (if endpoint.txUrb == null then {} else {endpoint.txUrb})`actualLength
    ensures endpoint.Valid() && Knows(endpoint, urbs)
    ensures endpoint.txUrb != null ==> endpoint.txUrb.actualLength == old(endpoint.txUrb.actualLength) + popped
    ensures State(endpoint, urbs) ==
            Step(old(State(endpoint, urbs)),
                 Fill(old(if endpoint.txUrb == null then 0 else endpoint.txUrb.actualLength) + popped))
  {
    hide Ring, IsList, Alone, Among;
    if endpoint.txUrb != null {
      ActiveAmong(endpoint.View(), urbs);
      endpoint.txUrb.actualLength := endpoint.txUrb.actualLength + popped;
    }
  }

  /** A transfer is queued. */
  method QueueUrb(endpoint: Endpoint, urb: Urb, ghost urbs: set<Urb>)
    requires endpoint.Valid() && Knows(endpoint, urbs) && Alone(urb) && urb.link !in endpoint.Footprint()
    modifies endpoint`txQueue, endpoint`txList, endpoint`txLinks
    modifies (endpoint.txLinks + {urb.link})`next, (endpoint.txLinks + {urb.link})`prev
    ensures endpoint.Valid() && Knows(endpoint, urbs + {urb})
    ensures State(endpoint, urbs + {urb}) == Step(old(State(endpoint, urbs)), Queue(urb, urb.actualLength))
  {
    hide Ring, IsList, Alone, Int32, Finished;
    Submit(endpoint, urb);
    assert endpoint.txList == endpoint.View().tx && endpoint.doneList == endpoint.View().done;
  }
}
