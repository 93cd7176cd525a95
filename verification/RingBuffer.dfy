/** The telemetry transmit buffer: a producer that may be interrupted by the consumer between any two steps. */
module RingBuffer {
  import opened FixedWidth

  const RINGLEN := 5800
  const RINGSIZE := RINGLEN + 1

  // ---------------------------------------------------------------- the bytes between tail and head

  function Wrap(x: int): int {
    if x < RINGSIZE then x else x - RINGSIZE
  }

  predicate Slot(x: int) {
    0 <= x < RINGSIZE
  }

  /** The byte `k` places on from a slot. */
  function Place(store: seq<Byte>, base: int, k: nat): Byte
    requires |store| == RINGSIZE && Slot(base) && k < RINGSIZE
  {
    store[Wrap(base + k)]
  }

  /** The places from `base` on hold `b`. */
  predicate Holds(store: seq<Byte>, base: int, b: seq<Byte>)
    requires |store| == RINGSIZE && Slot(base) && |b| < RINGSIZE
  {
    forall k: nat :: k < |b| ==> Place(store, base, k) == b[k]
  }

  /** The queued bytes, oldest first. */
  function Window(store: seq<Byte>, tail: int, head: int): seq<Byte>
    requires |store| == RINGSIZE && Slot(tail) && Slot(head)
  {
    if tail <= head then store[tail..head] else store[tail..] + store[..head]
  }

  lemma WindowAt(store: seq<Byte>, tail: int, head: int)
    requires |store| == RINGSIZE && Slot(tail) && Slot(head)
    ensures |Window(store, tail, head)| == if tail <= head then head - tail else RINGSIZE - tail + head
    ensures Holds(store, tail, Window(store, tail, head))
  {
  }

  /** Two stores that agree on the occupied slots hold the same bytes. */
  lemma WindowAgrees(store: seq<Byte>, other: seq<Byte>, tail: int, head: int)
    requires |store| == |other| == RINGSIZE && Slot(tail) && Slot(head)
    requires |Window(store, tail, head)| < RINGSIZE && Holds(other, tail, Window(store, tail, head))
    ensures Window(other, tail, head) == Window(store, tail, head)
  {
    hide Window;
    WindowAt(store, tail, head);
    WindowAt(other, tail, head);
    var w, v := Window(store, tail, head), Window(other, tail, head);
    forall k: nat | k < |w| ensures v[k] == w[k] {
      assert Place(other, tail, k) == w[k];
    }
  }

  /** Writing a slot behind the head, short of the tail, leaves the queued bytes alone. */
  lemma WindowFree(store: seq<Byte>, tail: int, head: int, k: nat, b: Byte)
    requires |store| == RINGSIZE && Slot(tail) && Slot(head) && |Window(store, tail, head)| + k <= RINGLEN
    ensures Slot(Wrap(head + k)) && Window(store[Wrap(head + k) := b], tail, head) == Window(store, tail, head)
  {
    hide Window;
    WindowAt(store, tail, head);
    var w, now := Window(store, tail, head), store[Wrap(head + k) := b];
    forall j: nat | j < |w| ensures Place(now, tail, j) == w[j] {
      assert Place(store, tail, j) == w[j];
    }
    WindowAgrees(store, now, tail, head);
  }

  lemma WindowShrinks(store: seq<Byte>, tail: int, head: int)
    requires |store| == RINGSIZE && Slot(tail) && Slot(head) && tail != head
    ensures Slot(Wrap(tail + 1))
    ensures Window(store, tail, head) == [store[tail]] + Window(store, Wrap(tail + 1), head)
  {
    WindowAt(store, tail, head);
    WindowAt(store, Wrap(tail + 1), head);
  }

  /** Moving the head over `n` slots filled with `b` appends `b`. */
  lemma WindowGrows(store: seq<Byte>, tail: int, head: int, b: seq<Byte>)
    requires |store| == RINGSIZE && Slot(tail) && Slot(head) && |Window(store, tail, head)| + |b| <= RINGLEN
    requires Holds(store, head, b)
    ensures Slot(Wrap(head + |b|))
    ensures Window(store, tail, Wrap(head + |b|)) == Window(store, tail, head) + b
  {
    hide Window;
    WindowAt(store, tail, head);
    WindowAt(store, tail, Wrap(head + |b|));
    var old', new' := Window(store, tail, head), Window(store, tail, Wrap(head + |b|));
    forall j: nat | j < |b| ensures new'[|old'| + j] == b[j] {
      assert Place(store, tail, |old'| + j) == Place(store, head, j);
    }
    forall j: nat | j < |old'| ensures new'[j] == old'[j] {
      assert Place(store, tail, j) == old'[j];
    }
  }

  /** The bytes `now` of a queue that held `before`, some having been taken. */
  predicate Drained(before: seq<Byte>, now: seq<Byte>) {
    |now| <= |before| && now == before[|before| - |now|..]
  }

  // ---------------------------------------------------------------- the buffer

  class Ring {
    const store: array<Byte>
    var head: int
    var tail: int
    ghost var accepted: seq<Byte>     // every byte a put has reported stored
    ghost var sent: seq<Byte>         // every byte a get has returned

    constructor ()
      ensures Valid() && fresh(store) && accepted == sent == []
    {
      store := new Byte[RINGSIZE];
      head, tail, accepted, sent := 0, 0, [], [];
    }

    ghost predicate Valid()
      reads this, store
    {
      store.Length == RINGSIZE && Slot(head) && Slot(tail) && accepted == sent + Queue()
    }

    ghost function Queue(): (q: seq<Byte>)
      requires store.Length == RINGSIZE && Slot(head) && Slot(tail)
      reads this, store
      ensures |q| <= RINGLEN
    {
      WindowAt(store[..], tail, head);
      Window(store[..], tail, head)
    }

    lemma QueueLength()
      requires Valid()
      ensures |Queue()| == if tail <= head then head - tail else RINGSIZE - tail + head
    {
      hide Window;
      WindowAt(store[..], tail, head);
    }

    /** `ring_get`, run by the transmit interrupt. */
    method Get() returns (ok: bool, b: Byte)
      requires Valid()
      modifies `tail, `sent
      ensures Valid() && ok == (old(Queue()) != [])
      ensures ok ==> old(Queue()) == [b] + Queue() && sent == old(sent) + [b]
      ensures !ok ==> tail == old(tail) && sent == old(sent)
    {
      hide Window;
      var t := tail;
      WindowAt(store[..], tail, head);
      if head == t { return false, 0; }
      WindowShrinks(store[..], tail, head);
      b := store[t];
      t := t + 1;
      tail := if t < RINGSIZE then t else 0;
      sent := sent + [b];
      ok := true;
    }

    /** The interrupt strikes `times` times. */
    method Interrupt(times: nat)
      requires Valid()
      modifies `tail, `sent
      ensures Valid() && Drained(old(Queue()), Queue())
      ensures old(sent) <= sent && |sent| - old(|sent|) == old(|Queue()|) - |Queue()|
      ensures |Queue()| <= old(|Queue()|) && (times == 0 ==> tail == old(tail))
    {
      hide Window;
      var i := 0;
      while i < times
        invariant i <= times && Valid() && Drained(old(Queue()), Queue()) && (i == 0 ==> tail == old(tail))
        invariant old(sent) <= sent && |sent| - old(|sent|) == old(|Queue()|) - |Queue()|
      {
        ghost var before := Queue();
        var ok, b := Get();
        if ok { assert Queue() == before[1..]; }
        i := i + 1;
      }
    }

    /** `ring_put` with interrupts before the store, the comparison and the update of the head. */
    method Put(b: Byte, isr: nat -> nat) returns (n: nat)
      requires Valid()
      modifies `head, `tail, `accepted, `sent, store
      ensures Valid() && n <= 1
      ensures accepted == if n == 1 then old(accepted) + [b] else old(accepted)
      ensures n == 0 ==> old(|Queue()|) == 5800 && sent == old(sent)
    {
      hide Window, Holds, Drained;
      Interrupt(isr(0));
      var h := head;
      StoreByte(h, 0, b);
      HoldsOne(store[..], head, b);
      h := h + 1;
      if h >= RINGSIZE { h := 0; }
      Interrupt(isr(1));
      WindowAt(store[..], tail, head);
      if h == tail { return 0; }
      Interrupt(isr(2));
      Publish(h, [b]);
      n := 1;
    }

    static lemma HoldsOne(now: seq<Byte>, base: int, b: Byte)
      requires |now| == RINGSIZE && Slot(base) && now[base] == b
      ensures Holds(now, base, [b])
    {
    }

    /** A byte goes to the slot `k` places behind the head. */
    method StoreByte(at: int, k: nat, b: Byte)
      requires Valid() && |Queue()| + k <= RINGLEN && at == Wrap(head + k)
      modifies store
      ensures Slot(at) && Valid() && store[..] == old(store[..])[at := b] && Queue() == old(Queue())
    {
      hide Window;
      WindowFree(store[..], tail, head, k, b);
      store[at] := b;
      assert store[..] == old(store[..])[at := b];
    }

    /** The head moves over the bytes `b` stored behind it. */
    method Publish(h: int, ghost b: seq<Byte>)
      requires Valid() && |Queue()| + |b| <= RINGLEN && h == Wrap(head + |b|)
      requires Holds(store[..], head, b)
      modifies `head, `accepted
      ensures Valid() && accepted == old(accepted) + b && Queue() == old(Queue()) + b
    {
      hide Window;
      WindowGrows(store[..], tail, head, b);
      head := h;
      accepted := accepted + b;
    }

    /** `memcpy` of `b[from..to]` to the slots from `at` on, interrupted before every byte: `isr(2 + i)` times before `b[i]`. */
    method Copy(at: int, b: seq<Byte>, from: nat, to: nat, isr: nat -> nat)
      requires Valid() && from <= to <= |b| && |Queue()| + to <= RINGLEN
      requires from < to ==> at == Wrap(head + from) && at + (to - from) <= RINGSIZE
      requires Holds(store[..], head, b[..from])
      modifies `tail, `sent, store
      ensures Valid() && Drained(old(Queue()), Queue()) && |Queue()| <= old(|Queue()|)
      ensures Holds(store[..], head, b[..to])
    {
      hide Queue, Holds, Drained;
      var i := from;
      StillDrained(Queue(), Queue(), Queue());
      while i < to
        invariant from <= i <= to && Valid() && Drained(old(Queue()), Queue()) && Holds(store[..], head, b[..i])
        invariant |Queue()| <= old(|Queue()|)
      {
        ghost var before := Queue();
        Interrupt(isr(2 + i));
        StillDrained(old(Queue()), before, Queue());
        assert at + (i - from) == Wrap(head + i);
        HoldsMore(store[..], head, b, i);
        StoreByte(at + (i - from), i, b[i]);
        i := i + 1;
      }
    }

    static lemma StillDrained(a: seq<Byte>, b: seq<Byte>, c: seq<Byte>)
      ensures Drained(a, a) && (Drained(a, b) && Drained(b, c) ==> Drained(a, c))
    {
    }

    static lemma HoldsMore(now: seq<Byte>, base: int, b: seq<Byte>, i: nat)
      requires |now| == RINGSIZE && Slot(base) && i < |b| && i < RINGLEN && Holds(now, base, b[..i])
      ensures Slot(Wrap(base + i)) && Holds(now[Wrap(base + i) := b[i]], base, b[..i + 1])
    {
      var then' := now[Wrap(base + i) := b[i]];
      forall k: nat | k < i + 1 ensures Place(then', base, k) == b[..i + 1][k] {
        if k < i { assert Place(now, base, k) == b[..i][k]; }
      }
    }

    /** The copy of `r` bytes that fit before the end of the store. */
    method CopyStraight(h: int, b: seq<Byte>, r: nat, isr: nat -> nat)
      requires Valid() && h == head && r <= |b| && |Queue()| + r <= RINGLEN && r + h <= RINGSIZE
      modifies `tail, `sent, store
      ensures Valid() && |Queue()| <= old(|Queue()|) && Holds(store[..], head, b[..r])
    {
      hide Queue, Holds, Window;
      HoldsNothing(store[..], head, b);
      Copy(h, b, 0, r, isr);
    }

    /** The copy of `r` bytes round the end of the store, in two pieces. */
    method CopyWrapped(h: int, b: seq<Byte>, r: nat, isr: nat -> nat)
      requires Valid() && h == head && r <= |b| && |Queue()| + r <= RINGLEN && r + h > RINGSIZE
      modifies `tail, `sent, store
      ensures Valid() && |Queue()| <= old(|Queue()|) && Holds(store[..], head, b[..r])
    {
      hide Queue, Holds, Window;
      HoldsNothing(store[..], head, b);
      var n1 := RINGSIZE - h;
      Copy(h, b, 0, n1, isr);
      Copy(0, b, n1, r, isr);
    }

    /** The second half of `ring_putn`: `r` bytes that fit are copied, round the end if need be, and published. */
    method Append(h: int, b: seq<Byte>, r: nat, isr: nat -> nat)
      requires Valid() && h == head && r <= |b| && |Queue()| + r <= RINGLEN
      modifies `head, `tail, `accepted, `sent, store
      ensures Valid() && accepted == old(accepted) + b[..r]
    {
      hide Queue, Holds, Window, Drained;
      if r + h <= RINGSIZE {
        CopyStraight(h, b, r, isr);
      } else {
        CopyWrapped(h, b, r, isr);
      }
      Interrupt(isr(2 + r));
      var h' := h + r;
      Publish(if h' < RINGSIZE then h' else h' - RINGSIZE, b[..r]);
    }

    static lemma HoldsNothing(now: seq<Byte>, base: int, b: seq<Byte>)
      requires |now| == RINGSIZE && Slot(base)
      ensures Holds(now, base, b[..0])
    {
    }

    /**
     `ring_putn`: the tail is sampled once; what is stored is decided from that, possibly stale, sample.
     The interrupt strikes `isr(0)` times before the sample, `isr(1)` times behind it, `isr(2 + i)` times
     before byte `i` and `isr(2 + r)` times before the head moves, each independently of the others.
     */
    method PutN(b: seq<Byte>, n: nat, isr: nat -> nat) returns (r: nat)
      requires Valid() && n <= |b|
      modifies `head, `tail, `accepted, `sent, store
      ensures Valid() && r <= n && accepted == old(accepted) + b[..r]
      ensures r < n ==> r >= RINGLEN - old(|Queue()|)
      ensures isr(0) == 0 && r < n ==> r == RINGLEN - old(|Queue()|)
    {
      hide Queue, Drained;
      QueueLength();
      Interrupt(isr(0));
      var t := tail;
      QueueLength();
      ghost var room := RINGLEN - |Queue()|;
      Interrupt(isr(1));
      var h := head;
      var space: int;
      if h < t {
        space := t - h - 1;
      } else {
        space := RINGLEN - h + t;
      }
      assert space == room;
      r := n;
      if r > space { r := space; }
      Append(h, b, r, isr);
    }

    /** `ring_available`. */
    method Available() returns (n: int)
      requires Valid()
      ensures n == |Queue()|
    {
      WindowAt(store[..], tail, head);
      n := head - tail;
      if n < 0 { n := RINGSIZE + n; }
    }

    /** `ring_space`, interrupted behind the sample: never more than there is by then, never less than there was. */
    method Space(isr: nat -> nat) returns (space: int)
      requires Valid()
      modifies `tail, `sent
      ensures Valid() && Drained(old(Queue()), Queue())
      ensures space == RINGLEN - old(|Queue()|) && space <= RINGLEN - |Queue()|
    {
      hide Window;
      WindowAt(store[..], tail, head);
      var t := tail;
      var before := RINGLEN - |Queue()|;
      Interrupt(isr(0));
      if head < t {
        space := t - head - 1;
      } else {
        space := RINGLEN - head + t;
      }
    }

    /** `queue_data`: everything or nothing; a message that would just fit is refused.  `isr(0)` belongs to the check, the rest to the put. */
    method QueueData(b: seq<Byte>, isr: nat -> nat) returns (done: bool)
      requires Valid()
      modifies `head, `tail, `accepted, `sent, store
      ensures Valid() && done == (RINGLEN - old(|Queue()|) > |b|)
      ensures accepted == if done then old(accepted) + b else old(accepted)
    {
      var space := Space(isr);
      done := space > |b|;
      if done {
        var r := PutN(b, |b|, k => isr(k + 1));
        assert b[..r] == b;
      }
    }
  }
}
