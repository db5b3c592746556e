/** The global bus: publish wakes a consumer that checks the ring before it sleeps
    (components/stark_event/stark_event.c). */
module EventBus {
  import opened Stark
  import opened EventCore

  class Bus {
    const core: Core
    var consumed: uint32
    var token: bool
    var giving: nat // producers between their enqueue and their give

    ghost predicate Valid()
      reads this, core, core.storage
    {
      core.Valid() && !core.dispatching && consumed == Low32(core.taken)
    }

    constructor (core: Core)
      requires core.Valid() && !core.dispatching && core.taken == 0
      ensures Valid() && this.core == core && !token && giving == 0
    {
      this.core := core;
      consumed, token, giving := 0, false, 0;
    }

    /** Enqueues, then gives the binary semaphore. In between any task may run, the consumer
        included, so the event may be gone again; unless it has been taken or dropped, it is queued
        with the token there for it. */
    method Publish(e: Event) returns (err: Err)
      requires Valid()
      modifies this`token, this`giving, this`consumed, core, core.storage
      ensures Valid() && err == if TypeValid(e.kind) then Ok else InvalidArg
      ensures err == Ok ==> token && old(core.log) + [e] <= core.log
      ensures err == Ok && core.drops + core.taken <= |old(core.log)| ==> core.count > 0
      ensures err != Ok ==> token == old(token) && core.log == old(core.log) && core.count == old(core.count)
    {
      hide Low32, Ring, AllValid;
      err := core.Publish(e);
      if err == Ok {
        AnyTask();
        token := true;
      }
    }

    /** Whatever other tasks do: publish, give, take the token, dispatch. */
    method AnyTask()
      requires Valid()
      modifies this`token, this`giving, this`consumed, core, core.storage
      ensures Valid() && old(core.log) <= core.log
    {
      hide Low32, Ring, AllValid;
      var n: nat := *;
      while n > 0
        invariant Valid() && old(core.log) <= core.log
      {
        if {
          case true => Producers();
          case true => token := false;
          case true =>
            var most: uint32 := *;
            var _ := Dispatch(most);
        }
        n := n - 1;
      }
    }

    method Dispatch(maxEvents: uint32) returns (n: nat)
      requires Valid()
      modifies this`consumed, core, core.storage
      ensures Valid() && n <= maxEvents && core.taken == old(core.taken) + n && old(core.log) <= core.log
    {
      hide Low32, Ring, AllValid;
      var k, _, _ := core.Dispatch(maxEvents);
      n := k;
      Low32Sum(core.taken - n, n);
      consumed := Add32(consumed, n);
    }

    /** Whether an event is waiting, from the counters alone: exact, although all three wrap. */
    method Pending() returns (pending: bool)
      requires Valid()
      ensures pending <==> core.count > 0
    {
      hide Low32;
      Gap(|core.log|, core.drops);
      Gap(|core.log| - core.drops, core.taken);
      var queued := Sub32(Sub32(core.published, core.dropped), consumed);
      pending := queued != 0;
    }

    /** How many more times a waiting consumer can find the token without finding an event. */
    ghost function StaleTokens(): nat
      reads this, core
    {
      if core.count > 0 then 0 else 1 + giving + if token then 1 else 0
    }

    /** Other tasks publish: each enqueues and later gives. */
    method Producers()
      requires Valid()
      modifies this`token, this`giving, core, core.storage
      ensures Valid() && core.taken == old(core.taken) && old(core.log) <= core.log
      ensures old(core.count) > 0 ==> core.count > 0
      ensures StaleTokens() <= old(StaleTokens())
      ensures old(token) ==> token
    {
      hide Low32, Ring, AllValid;
      var n: nat := *;
      while n > 0
        invariant Valid() && core.taken == old(core.taken) && old(core.log) <= core.log
        invariant old(core.count) > 0 ==> core.count > 0
        invariant StaleTokens() <= old(StaleTokens())
        invariant old(token) ==> token
      {
        if {
          case true =>
            var e: Event := *;
            var err := core.Publish(e);
            giving := giving + if err == Ok then 1 else 0;
          case giving > 0 =>
            token := true;
            giving := giving - 1;
        }
        n := n - 1;
      }
    }

    /** The ring decides, the semaphore only wakes: OK means there is an event to dispatch, an
        event already queued is seen at once, and leftover tokens cannot keep it looping. */
    method Wait() returns (err: Err)
      requires Valid()
      modifies this`token, this`giving, core, core.storage
      ensures Valid() && core.taken == old(core.taken) && (err == Ok || err == Timeout)
      ensures err == Ok ==> core.count > 0
      ensures old(core.count) > 0 ==> err == Ok
    {
      while true
        invariant Valid() && core.taken == old(core.taken)
        invariant old(core.count) > 0 ==> core.count > 0
        decreases StaleTokens()
      {
        var pending := Pending();
        if pending {
          return Ok;
        }
        Producers();
        if !token {
          return Timeout;
        }
        token := false;
        Producers();
        var late: bool := *;
        if late {
          pending := Pending();
          return if pending then Ok else Timeout;
        }
      }
    }
  }

  lemma {:induction false} Low32Sum(a: nat, b: uint32)
    ensures Low32(a + b) == Add32(Low32(a), b)
  {
    var q, r := a / TWO32, a % TWO32;
    if r + b >= TWO32 {
      assert a + b == TWO32 * (q + 1) + (r + b - TWO32);
    }
  }

  // ---- The wakeup protocol ---------------------------------------------------

  /** Where the one consumer is. Taken counts the events a dispatch under way has popped. */
  datatype Consumer = Running | Dispatching(popped: nat) | Checking | Taking | Woken

  /** giving counts the producers between their enqueue and their give. */
  datatype Wake = Wake(queued: nat, published: nat, dropped: nat, consumed: nat, token: bool, giving: nat,
                       consumer: Consumer)

  /** The atomic steps of all tasks: a producer's enqueue and give, the consumer's dispatch (one
      pop at a time) and the parts of its wait. */
  datatype Step = Enqueue | Give | StartDispatch | Pop | EndDispatch | StartWait | Check(last: bool) | Take | TimeOut

  /** What the consumer reads off the wrapping counters. */
  predicate SeesWork(w: Wake) {
    Sub32(Sub32(Low32(w.published), Low32(w.dropped)), Low32(w.consumed)) != 0
  }

  predicate Free(c: Consumer) {
    c == Running || c == Woken
  }

  /** A step that cannot be taken leaves the state alone. */
  function Next(w: Wake, s: Step, capacity: nat): Wake {
    match s
    case Enqueue =>
      if w.queued == capacity then w.(published := w.published + 1, dropped := w.dropped + 1, giving := w.giving + 1)
      else w.(published := w.published + 1, queued := w.queued + 1, giving := w.giving + 1)
    case Give => if w.giving == 0 then w else w.(token := true, giving := w.giving - 1)
    case StartDispatch => if Free(w.consumer) then w.(consumer := Dispatching(0)) else w
    case Pop =>
      if w.consumer.Dispatching? && w.queued > 0 then
        w.(queued := w.queued - 1, consumer := Dispatching(w.consumer.popped + 1))
      else w
    case EndDispatch =>
      if w.consumer.Dispatching? then w.(consumed := w.consumed + w.consumer.popped, consumer := Running) else w
    case StartWait => if Free(w.consumer) then w.(consumer := Checking) else w
    case Check(last) =>
      if w.consumer != Checking then w
      else w.(consumer := if SeesWork(w) then Woken else if last then Running else Taking)
    case Take => if w.consumer == Taking && w.token then w.(token := false, consumer := Checking) else w
    case TimeOut => if w.consumer == Taking then w.(consumer := Running) else w
  }

  const Fresh := Wake(0, 0, 0, 0, false, 0, Running)

  function Run(steps: seq<Step>, n: nat, capacity: nat): Wake
    requires n <= |steps|
  {
    if n == 0 then Fresh else Next(Run(steps, n - 1, capacity), steps[n - 1], capacity)
  }

  function Popped(c: Consumer): nat {
    if c.Dispatching? then c.popped else 0
  }

  /** Nothing is lost: every event is queued, dropped, consumed or in the dispatch under way; a
      consumer about to sleep on a non-empty ring will be woken; a woken one has work. */
  predicate Inv(w: Wake, capacity: nat) {
    && w.queued <= capacity
    && w.published == w.dropped + w.consumed + Popped(w.consumer) + w.queued
    && (w.consumer == Taking && w.queued > 0 ==> w.token || w.giving > 0)
    && (w.consumer == Woken ==> w.queued > 0)
  }

  lemma {:induction false} SeesWorkExactly(w: Wake, capacity: nat)
    requires Inv(w, capacity) && !w.consumer.Dispatching? && capacity < TWO32
    ensures SeesWork(w) <==> w.queued > 0
  {
    hide Low32;
    Gap(w.published, w.dropped);
    Gap(w.published - w.dropped, w.consumed);
  }

  lemma {:induction false} NextKeepsInv(w: Wake, s: Step, capacity: nat)
    requires Inv(w, capacity) && 0 < capacity < TWO32
    ensures Inv(Next(w, s, capacity), capacity)
  {
    hide SeesWork;
    if s.Check? && w.consumer == Checking {
      SeesWorkExactly(w, capacity);
    }
  }

  /** No lost wakeup, and no false one: after any number of steps of any interleaving, a
      consumer about to block on a non-empty ring finds the token or some producer has still to
      give it; and a wait that returned OK left work for dispatch. */
  lemma {:induction false} NoLostWakeup(steps: seq<Step>, n: nat, capacity: nat)
    requires n <= |steps| && 0 < capacity < TWO32
    ensures Inv(Run(steps, n, capacity), capacity)
    ensures var w := Run(steps, n, capacity);
            && (w.consumer == Taking && !w.token && w.giving == 0 ==> w.queued == 0)
            && (w.consumer == Woken ==> w.queued > 0)
    decreases n
  {
    hide Next;
    if n > 0 {
      NoLostWakeup(steps, n - 1, capacity);
      NextKeepsInv(Run(steps, n - 1, capacity), steps[n - 1], capacity);
    }
  }

  /** A consumer that can only block, while no producer has still to give, has an empty ring. */
  lemma {:induction false} BlockedMeansEmpty(steps: seq<Step>, n: nat, capacity: nat)
    requires n <= |steps| && 0 < capacity < TWO32
    requires var w := Run(steps, n, capacity);
             w.consumer == Taking && Next(w, Take, capacity) == w && Next(w, Give, capacity) == w
    ensures Run(steps, n, capacity).queued == 0
  {
    hide Run, Inv;
    NoLostWakeup(steps, n, capacity);
  }
}
