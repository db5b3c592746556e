/** The event bus: a drop-oldest ring with handlers that may publish while events are being
    delivered (components/stark_event/stark_event_core.c, stark_event.c). */
module EventCore {
  import opened Stark

  const TYPE_LAST := 4
  const MAX_SUBS := 8

  /** kind is the event type; body stands for the payload and the timestamp. */
  datatype Event = Event(kind: nat, body: int)

  /** mask is the set of types whose bit is set; fn identifies the handler. */
  datatype Sub = Sub(mask: set<nat>, fn: nat)

  /** Handler fn has been called with the event of index number in publish order. */
  datatype Invoked = Invoked(fn: nat, number: nat)

  predicate TypeValid(kind: nat) {
    0 < kind <= TYPE_LAST
  }

  function Inc32(a: uint32): uint32 {
    if a + 1 < TWO32 then a + 1 else 0
  }

  function Low32(n: nat): (r: uint32)
  {
    n % TWO32
  }

  lemma {:induction false} Low32Inc(n: nat)
    ensures Low32(n + 1) == Inc32(Low32(n))
  {
  }

  /** Fewer than 2^32 apart, two counts' difference survives the wrap. */
  lemma {:induction false} Gap(a: nat, b: nat)
    requires b <= a
    ensures Sub32(Low32(a), Low32(b)) == Low32(a - b)
    ensures a - b < TWO32 ==> Sub32(Low32(a), Low32(b)) == a - b
  {
    var q, r := a / TWO32, a % TWO32;
    var p, u := b / TWO32, b % TWO32;
    assert a - b == TWO32 * (q - p) + (r - u);
    if r < u {
      assert a - b == TWO32 * (q - p - 1) + (r - u + TWO32);
    }
  }

  /** The slot x places after the start of the ring: the remainder, without dividing. */
  function Slot(x: nat, capacity: nat): (s: nat)
    requires x < 2 * capacity
    ensures s < capacity
  {
    if x < capacity then x else x - capacity
  }

  /** The ring's index arithmetic, which divides. */
  method Wrap(x: nat, capacity: nat) returns (s: nat)
    requires x < 2 * capacity
    ensures s == Slot(x, capacity)
  {
    s := x % capacity;
    assert x >= capacity ==> x == capacity * 1 + (x - capacity);
  }

  function At(s: seq<Event>, head: nat, i: nat): Event
    requires head < |s| && i < |s|
  {
    s[Slot(head + i, |s|)]
  }

  /** The slots from the head on hold the queued events in order. */
  ghost predicate Ring(s: seq<Event>, head: nat, queued: seq<Event>) {
    head < |s| && |queued| <= |s| && forall i :: 0 <= i < |queued| ==> At(s, head, i) == queued[i]
  }

  lemma {:induction false} RingPops(s: seq<Event>, head: nat, queued: seq<Event>)
    requires Ring(s, head, queued) && queued != []
    ensures queued[0] == s[head] && Ring(s, Slot(head + 1, |s|), queued[1..])
  {
    assert At(s, head, 0) == queued[0];
    forall i | 0 <= i < |queued| - 1
      ensures At(s, Slot(head + 1, |s|), i) == queued[1..][i]
    {
      assert At(s, head, i + 1) == queued[i + 1];
    }
  }

  lemma {:induction false} RingPushes(s: seq<Event>, head: nat, queued: seq<Event>, e: Event)
    requires Ring(s, head, queued) && |queued| < |s|
    ensures Ring(s[Slot(head + |queued|, |s|) := e], head, queued + [e])
  {
    var t := s[Slot(head + |queued|, |s|) := e];
    forall i | 0 <= i <= |queued|
      ensures At(t, head, i) == (queued + [e])[i]
    {
      if i < |queued| {
        assert At(s, head, i) == queued[i];
      }
    }
  }

  /** The calls one event makes: every subscriber to its type, in the order they subscribed. */
  function Calls(subs: seq<Sub>, kind: nat, number: nat): seq<Invoked> {
    if subs == [] then []
    else
      var s := subs[|subs| - 1];
      Calls(subs[..|subs| - 1], kind, number) + (if kind in s.mask then [Invoked(s.fn, number)] else [])
  }

  /** The calls of a whole dispatch: the k-th event delivered had index numbers[k] and met the
      first known[k] subscribers. */
  function AllCalls(log: seq<Event>, subs: seq<Sub>, numbers: seq<nat>, known: seq<nat>): seq<Invoked>
    requires |numbers| == |known|
    requires forall k :: 0 <= k < |numbers| ==> numbers[k] < |log| && known[k] <= |subs|
  {
    if numbers == [] then []
    else
      var n := |numbers| - 1;
      AllCalls(log, subs, numbers[..n], known[..n]) + Calls(subs[..known[n]], log[numbers[n]].kind, numbers[n])
  }

  lemma {:induction false} AllCallsOfMore(log: seq<Event>, subs: seq<Sub>, more: seq<Event>, others: seq<Sub>,
                                          numbers: seq<nat>, known: seq<nat>)
    requires |numbers| == |known| && log <= more && subs <= others
    requires forall k :: 0 <= k < |numbers| ==> numbers[k] < |log| && known[k] <= |subs|
    ensures AllCalls(more, others, numbers, known) == AllCalls(log, subs, numbers, known)
    decreases |numbers|
  {
    if numbers != [] {
      var n := |numbers| - 1;
      AllCallsOfMore(log, subs, more, others, numbers[..n], known[..n]);
      assert others[..known[n]] == subs[..known[n]];
    }
  }

  lemma {:induction false} AllCallsOneMore(log: seq<Event>, subs: seq<Sub>, numbers: seq<nat>, known: seq<nat>,
                                           number: nat, met: nat)
    requires |numbers| == |known| && number < |log| && met <= |subs|
    requires forall k :: 0 <= k < |numbers| ==> numbers[k] < |log| && known[k] <= |subs|
    ensures AllCalls(log, subs, numbers + [number], known + [met]) ==
            AllCalls(log, subs, numbers, known) + Calls(subs[..met], log[number].kind, number)
  {
    assert (numbers + [number])[..|numbers|] == numbers && (known + [met])[..|known|] == known;
  }

  /** Strictly increasing, and inside [lo, hi). */
  predicate InOrder(numbers: seq<nat>, lo: int, hi: int) {
    && (forall k :: 0 <= k < |numbers| ==> lo <= numbers[k] < hi)
    && (forall j, k :: 0 <= j < k < |numbers| ==> numbers[j] < numbers[k])
  }

  lemma InOrderMore(numbers: seq<nat>, lo: int, hi: int, number: nat, end: int)
    requires InOrder(numbers, lo, hi) && lo <= number && hi <= number < end
    ensures InOrder(numbers + [number], lo, end)
  {
  }

  lemma InOrderWider(numbers: seq<nat>, lo: int, hi: int, end: int)
    requires InOrder(numbers, lo, hi) && hi <= end
    ensures InOrder(numbers, lo, end)
  {
  }

  /** How far a dispatch that began at the s-th publish, with the first-th event the oldest, has
      come: the events delivered and the calls made for them. */
  ghost predicate Delivered(log: seq<Event>, subs: seq<Sub>, oldest: nat, s: nat, first: nat, numbers: seq<nat>,
                            known: seq<nat>, before: seq<Invoked>, calls: seq<Invoked>)
  {
    && |numbers| == |known|
    && (forall k :: 0 <= k < |numbers| ==> numbers[k] < |log| && known[k] <= |subs|)
    && calls == before + AllCalls(log, subs, numbers, known)
    && (|log| - s < TWO32 ==>
          InOrder(numbers, first, Min(s, oldest)) && |numbers| <= s - first && oldest >= first + |numbers|)
  }

  lemma {:induction false} DeliveredMore(log: seq<Event>, subs: seq<Sub>, oldest: nat, s: nat, first: nat,
                                         numbers: seq<nat>, known: seq<nat>, before: seq<Invoked>, calls: seq<Invoked>,
                                         log2: seq<Event>, subs2: seq<Sub>, oldest2: nat, number: nat, met: nat,
                                         calls2: seq<Invoked>)
    requires Delivered(log, subs, oldest, s, first, numbers, known, before, calls) && log <= log2 && subs <= subs2
    requires oldest <= number < |log2| && number < oldest2 && met <= |subs2| && (|log2| - s < TWO32 ==> number < s)
    requires calls2 == calls + Calls(subs2[..met], log2[number].kind, number)
    ensures Delivered(log2, subs2, oldest2, s, first, numbers + [number], known + [met], before, calls2)
  {
    hide AllCalls, Calls, InOrder;
    AllCallsOfMore(log, subs, log2, subs2, numbers, known);
    AllCallsOneMore(log2, subs2, numbers, known, number, met);
    if |log2| - s < TWO32 {
      InOrderMore(numbers, first, Min(s, oldest), number, Min(s, oldest2));
    }
  }

  lemma {:induction false} DeliveredStill(log: seq<Event>, subs: seq<Sub>, oldest: nat, s: nat, first: nat,
                                          numbers: seq<nat>, known: seq<nat>, before: seq<Invoked>, calls: seq<Invoked>,
                                          log2: seq<Event>, subs2: seq<Sub>, oldest2: nat)
    requires Delivered(log, subs, oldest, s, first, numbers, known, before, calls) && log <= log2 && subs <= subs2
    requires oldest <= oldest2
    ensures Delivered(log2, subs2, oldest2, s, first, numbers, known, before, calls)
  {
    hide AllCalls, Calls, InOrder;
    AllCallsOfMore(log, subs, log2, subs2, numbers, known);
    if |log2| - s < TWO32 {
      InOrderWider(numbers, first, Min(s, oldest), Min(s, oldest2));
    }
  }

  ghost predicate AllValid(log: seq<Event>) {
    forall k :: 0 <= k < |log| ==> TypeValid(log[k].kind)
  }

  lemma RingSize(s: seq<Event>, head: nat, queued: seq<Event>)
    requires Ring(s, head, queued)
    ensures head < |s| && |queued| <= |s|
  {
  }

  lemma RingFirst(s: seq<Event>, head: nat, queued: seq<Event>)
    requires Ring(s, head, queued) && queued != []
    ensures s[head] == queued[0]
  {
    RingPops(s, head, queued);
  }

  lemma TailOfTail(log: seq<Event>, k: nat)
    requires k < |log|
    ensures log[k..][1..] == log[k + 1..] && log[k..][0] == log[k]
  {
  }

  lemma TailOfMore(log: seq<Event>, e: Event, k: nat)
    requires k <= |log|
    ensures (log + [e])[k..] == log[k..] + [e]
  {
  }

  lemma AllValidMore(log: seq<Event>, e: Event)
    requires AllValid(log) && TypeValid(e.kind)
    ensures AllValid(log + [e])
  {
  }

  /** Every event accepted is queued, handed out or dropped, and the counters say so modulo 2^32. */
  ghost predicate Counted(log: seq<Event>, drops: nat, taken: nat, count: nat, published: uint32, dropped: uint32) {
    && drops + taken + count == |log| && published == Low32(|log|) && dropped == Low32(drops) && AllValid(log)
  }

  lemma CountedMore(log: seq<Event>, drops: nat, taken: nat, count: nat, published: uint32, dropped: uint32, e: Event)
    requires Counted(log, drops, taken, count, published, dropped) && TypeValid(e.kind)
    ensures Counted(log + [e], drops, taken, count + 1, Inc32(published), dropped)
    ensures |log| == drops + taken + count && (log + [e])[drops + taken..] == log[drops + taken..] + [e]
  {
    Low32Inc(|log|);
    AllValidMore(log, e);
    TailOfMore(log, e, drops + taken);
  }

  class Core {
    const storage: array<Event>
    var head: nat
    var count: nat
    var published: uint32
    var dropped: uint32
    var maxDepth: uint32
    var subs: seq<Sub>
    var dispatching: bool
    ghost var log: seq<Event>        // every event accepted
    ghost var drops: nat             // how many of them the ring pushed out
    ghost var taken: nat             // how many have been handed out
    ghost var calls: seq<Invoked>

    /** The ring holds the last `count` events accepted, oldest at the head. */
    ghost predicate Valid()
      reads this, storage
    {
      && 0 < storage.Length < TWO32 && head < storage.Length && count <= storage.Length
      && Counted(log, drops, taken, count, published, dropped)
      && Ring(storage[..], head, log[drops + taken..])
      && count <= maxDepth <= storage.Length && |subs| <= MAX_SUBS
    }

    constructor (storage: array<Event>)
      requires 0 < storage.Length < TWO32
      ensures Valid() && this.storage == storage && log == [] && subs == [] && !dispatching && calls == []
    {
      this.storage := storage;
      head, count, published, dropped, maxDepth := 0, 0, 0, 0, 0;
      subs, dispatching, log, drops, taken, calls := [], false, [], 0, 0, [];
    }

    /** Accepts any event of a valid type; when the ring is full the oldest event goes. */
    method Publish(e: Event) returns (err: Err)
      requires Valid()
      modifies this`head, this`count, this`published, this`dropped, this`maxDepth, this`log, this`drops, storage
      ensures Valid() && err == if TypeValid(e.kind) then Ok else InvalidArg
      ensures err == Ok ==>
                && log == old(log) + [e] && count == Min(old(count) + 1, storage.Length)
                && drops == old(drops) + (if old(count) == storage.Length then 1 else 0)
                && maxDepth == Max(old(maxDepth), count)
      ensures err != Ok ==> log == old(log) && count == old(count) && drops == old(drops) && maxDepth == old(maxDepth)
    {
      if !TypeValid(e.kind) {
        return InvalidArg;
      }
      if count == storage.Length {
        DropOldest();
      }
      Append(e);
      return Ok;
    }

    /** The head moves past the oldest queued event. */
    method Advance(ghost queued: seq<Event>)
      requires Ring(storage[..], head, queued) && queued != []
      modifies this`head
      ensures Ring(storage[..], head, queued[1..]) && head < storage.Length
    {
      RingPops(storage[..], head, queued);
      head := Wrap(head + 1, storage.Length);
    }

    /** The slot behind the queued events takes one more. */
    method Store(ghost queued: seq<Event>, e: Event)
      requires Ring(storage[..], head, queued) && count == |queued| < storage.Length
      modifies storage
      ensures Ring(storage[..], head, queued + [e])
    {
      RingPushes(storage[..], head, queued, e);
      hide Slot, Ring;
      ghost var was := storage[..];
      var tail := Wrap(head + count, storage.Length);
      storage[tail] := e;
      assert storage[..] == was[tail := e];
    }

    method DropOldest()
      requires Valid() && count > 0
      modifies this`head, this`count, this`dropped, this`drops
      ensures Valid() && count == old(count) - 1 && drops == old(drops) + 1
    {
      hide Low32, Ring, Inc32, AllValid;
      RingSize(storage[..], head, log[drops + taken..]);
      Low32Inc(drops);
      TailOfTail(log, drops + taken);
      Advance(log[drops + taken..]);
      count := count - 1;
      dropped := Inc32(dropped);
      drops := drops + 1;
    }

    method Append(e: Event)
      requires Valid() && count < storage.Length && TypeValid(e.kind)
      modifies this`count, this`published, this`maxDepth, this`log, storage
      ensures Valid() && log == old(log) + [e] && count == old(count) + 1 && maxDepth == Max(old(maxDepth), count)
    {
      CountedMore(log, drops, taken, count, published, dropped, e);
      hide *;
      Store(log[drops + taken..], e);
      count := count + 1;
      published := Inc32(published);
      log := log + [e];
      if count > maxDepth {
        maxDepth := count;
      }
    }

    method Subscribe(mask: set<nat>, fn: nat) returns (err: Err)
      requires Valid()
      modifies this`subs
      ensures Valid()
      ensures err == if mask == {} then InvalidArg else if |old(subs)| == MAX_SUBS then NoMem else Ok
      ensures subs == if err == Ok then old(subs) + [Sub(mask, fn)] else old(subs)
    {
      if mask == {} {
        return InvalidArg;
      }
      err := NoMem;
      if |subs| < MAX_SUBS {
        subs := subs + [Sub(mask, fn)];
        err := Ok;
      }
    }

    /** Takes the oldest event out, with the subscribers known at this moment. */
    method Pop() returns (e: Event, known: seq<Sub>)
      requires Valid() && count > 0
      modifies this`head, this`count, this`taken
      ensures Valid() && taken == old(taken) + 1 && count == old(count) - 1
      ensures e == log[old(drops + taken)] && known == subs
    {
      hide Low32, Ring, AllValid;
      RingSize(storage[..], head, log[drops + taken..]);
      RingFirst(storage[..], head, log[drops + taken..]);
      TailOfTail(log, drops + taken);
      e := storage[head];
      Advance(log[drops + taken..]);
      count := count - 1;
      taken := taken + 1;
      known := subs;
    }

    /** While the lock is free, handlers and other tasks publish, subscribe and try to dispatch
        (which returns 0 at once) as they like. */
    method Others()
      requires Valid() && dispatching
      modifies this`head, this`count, this`published, this`dropped, this`maxDepth, this`log, this`drops, this`subs,
               storage
      ensures Valid() && old(log) <= log && old(subs) <= subs && drops >= old(drops)
    {
      var n: nat := *;
      while n > 0
        invariant Valid() && old(log) <= log && old(subs) <= subs && drops >= old(drops)
      {
        if {
          case true =>
            var e: Event := *;
            var _ := Publish(e);
          case true =>
            var mask: set<nat>, fn: nat := *, *;
            var _ := Subscribe(mask, fn);
        }
        n := n - 1;
      }
    }

    /** Calls every subscriber to the event's type, with the lock free. */
    method Deliver(e: Event, known: seq<Sub>, ghost number: nat)
      requires Valid() && dispatching && known <= subs && number < |log| && e == log[number]
      modifies this`head, this`count, this`published, this`dropped, this`maxDepth, this`log, this`drops, this`subs,
               this`calls, storage
      ensures Valid() && old(log) <= log && old(subs) <= subs && drops >= old(drops)
      ensures calls == old(calls) + Calls(known, e.kind, number)
    {
      var i := 0;
      while i < |known|
        invariant Valid() && i <= |known| && old(log) <= log && old(subs) <= subs && drops >= old(drops)
        invariant calls == old(calls) + Calls(known[..i], e.kind, number)
      {
        assert known[..i + 1][..i] == known[..i];
        if e.kind in known[i].mask {
          calls := calls + [Invoked(known[i].fn, number)];
          Others();
        }
        i := i + 1;
      }
      assert known[..i] == known;
    }

    /** Delivers the oldest event if it was queued before the s-th publish. */
    method DeliverNext(start: uint32, ghost s: nat) returns (more: bool, ghost number: nat, ghost met: nat)
      requires Valid() && dispatching && s <= |log| && start == Low32(s)
      modifies this`head, this`count, this`published, this`dropped, this`maxDepth, this`log, this`drops, this`subs,
               this`taken, this`calls, storage
      ensures Valid() && old(log) <= log && old(subs) <= subs && drops >= old(drops)
      ensures taken == old(taken) + if more then 1 else 0
      ensures more ==> old(drops + taken) <= number < |log| && met <= |subs| && drops + taken > number
      ensures |log| - s < TWO32 ==> if more then number < s else drops + taken >= s
      ensures more ==> calls == old(calls) + Calls(subs[..met], log[number].kind, number)
      ensures !more ==> calls == old(calls)
    {
      hide Low32, Ring;
      number, met := 0, 0;
      Others();
      var newer := Sub32(published, start);
      Gap(|log|, s);
      more := count > newer;
      if more {
        number := drops + taken;
        var e, known := Pop();
        met := |known|;
        Deliver(e, known, number);
        assert subs[..met] == known;
      }
    }

    /** Delivers up to maxEvents events. Provided fewer than 2^32 are published during the call:
        only events that were queued when it began, in publish order, each once and to every
        subscriber of its type known when it was taken, whatever the handlers publish, even when
        that pushes old events out; and it stops early only when none of the old ones is left. */
    method Dispatch(maxEvents: nat) returns (n: nat, ghost numbers: seq<nat>, ghost known: seq<nat>)
      requires Valid()
      modifies this, storage
      ensures Valid() && dispatching == old(dispatching) && old(log) <= log && old(subs) <= subs
      ensures taken == old(taken) + n && n <= maxEvents && |numbers| == |known| == n
      ensures old(dispatching) ==> n == 0 && log == old(log) && count == old(count) && subs == old(subs)
      ensures |log| - |old(log)| < TWO32 ==> InOrder(numbers, |old(log)| - old(count), |old(log)|) && n <= old(count)
      ensures |log| - |old(log)| < TWO32 && !old(dispatching) && n < maxEvents ==> drops + taken >= |old(log)|
      ensures forall k :: 0 <= k < n ==> numbers[k] < |log| && known[k] <= |subs|
      ensures calls == old(calls) + AllCalls(log, subs, numbers, known)
    {
      hide Ring, Low32, Calls, AllCalls, InOrder, AllValid, Delivered;
      n, numbers, known := 0, [], [];
      ghost var s, first := |log|, drops + taken;
      NoneDelivered(log, subs, s, first, calls);
      if maxEvents == 0 || dispatching {
        DeliveredEnds(log, subs, first, s, first, numbers, known, calls, calls);
        return;
      }
      dispatching := true;
      var start := published;
      var more := true;
      while more && n < maxEvents
        invariant Valid() && dispatching && old(log) <= log && old(subs) <= subs && start == Low32(s)
        invariant taken == old(taken) + n && n == |numbers| && n <= maxEvents
        invariant Delivered(log, subs, drops + taken, s, first, numbers, known, old(calls), calls)
        invariant |log| - s < TWO32 && !more ==> drops + taken >= s
        decreases maxEvents - n, more
      {
        ghost var log1, subs1, oldest, calls1, number, met := log, subs, drops + taken, calls, 0, 0;
        more, number, met := DeliverNext(start, s);
        if more {
          DeliveredMore(log1, subs1, oldest, s, first, numbers, known, old(calls), calls1,
                        log, subs, drops + taken, number, met, calls);
          numbers := numbers + [number];
          known := known + [met];
          n := n + 1;
        } else {
          DeliveredStill(log1, subs1, oldest, s, first, numbers, known, old(calls), calls, log, subs, drops + taken);
        }
      }
      DeliveredEnds(log, subs, drops + taken, s, first, numbers, known, old(calls), calls);
      dispatching := false;
    }
  }

  lemma NoneDelivered(log: seq<Event>, subs: seq<Sub>, s: nat, first: nat, calls: seq<Invoked>)
    requires first <= s
    ensures Delivered(log, subs, first, s, first, [], [], calls, calls)
  {
  }

  lemma {:induction false} DeliveredEnds(log: seq<Event>, subs: seq<Sub>, oldest: nat, s: nat, first: nat,
                                         numbers: seq<nat>,
                                         known: seq<nat>, before: seq<Invoked>, calls: seq<Invoked>)
    requires Delivered(log, subs, oldest, s, first, numbers, known, before, calls)
    ensures |numbers| == |known|
    ensures forall k :: 0 <= k < |numbers| ==> numbers[k] < |log| && known[k] <= |subs|
    ensures calls == before + AllCalls(log, subs, numbers, known)
    ensures |log| - s < TWO32 ==> InOrder(numbers, first, s) && |numbers| <= s - first
  {
    hide AllCalls;
  }
}
