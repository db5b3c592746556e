/** When a slot's entry changes, told by the answers its polls got over a whole run
    (components/stark_module/module_core.c, apply). */
module ModuleRuns {
  import opened Stark
  import opened ModuleDesc
  import opened ModuleCore

  /** What one poll of a slot answered. */
  datatype Poll = Poll(probe: Err, read: Err, raw: seq<bv8>)

  predicate Missed(p: Poll) {
    p.probe != Ok
  }

  predicate Unread(p: Poll) {
    p.probe == Ok && p.read != Ok
  }

  predicate Good(p: Poll) {
    p.probe == Ok && p.read == Ok
  }

  /** How many polls in a row, up to the last, found nobody. */
  function Misses(h: seq<Poll>): nat {
    if h == [] || !Missed(h[|h| - 1]) then 0 else Misses(h[..|h| - 1]) + 1
  }

  /** How many polls in a row, up to the last, could not read the descriptor. */
  function Failures(h: seq<Poll>): nat {
    if h == [] || !Unread(h[|h| - 1]) then 0 else Failures(h[..|h| - 1]) + 1
  }

  /** The last two polls read the same thing, as far as its hash tells. */
  predicate SameTwice(h: seq<Poll>) {
    && |h| >= 2 && Good(h[|h| - 1]) && Good(h[|h| - 2])
    && Hash(h[|h| - 1].raw) == Hash(h[|h| - 2].raw)
  }

  /** The step polls slot k. */
  predicate Polls(c: Core, e: Event, k: nat) {
    e.Polled? && c.round.Polling? && c.round.next == k < |c.slots|
  }

  /** The answers to the polls of slot k among the first n steps of a run. */
  function History(wires: seq<Wiring>, events: seq<Event>, n: nat, k: nat): seq<Poll>
    requires n <= |events|
  {
    if n == 0 then []
    else
      var e := events[n - 1];
      History(wires, events, n - 1, k)
      + if Polls(Run(wires, events, n - 1), e, k) then [Poll(e.probe, e.read, e.raw)] else []
  }

  /** The slot's counters say how its history ends. */
  predicate Remembers(s: Slot, h: seq<Poll>) {
    && s.misses == Min(Misses(h), MISS_LIMIT) && s.readErrors == Min(Failures(h), READ_LIMIT)
    && (s.seen <==> h != [] && Good(h[|h| - 1]))
    && (s.seen ==> s.seenHash == Digest(Hash(h[|h| - 1].raw)))
  }

  lemma {:induction false} ApplyRemembers(s: Slot, h: seq<Poll>, p: Poll)
    requires Remembers(s, h)
    ensures var a := Apply(s, p.probe, p.read, p.raw);
            Remembers(a.slot, h + [p]) && Remembers(Revoke(a.slot), h + [p])
  {
    hide Hash, ParseDesc;
    assert (h + [p])[..|h|] == h;
  }

  /** Every other step leaves the counters, and of the entry all but the mark of a conflict. */
  predicate SamePolled(s: Slot, t: Slot) {
    && t.misses == s.misses && t.readErrors == s.readErrors && t.seen == s.seen && t.seenHash == s.seenHash
    && t.accepted == s.accepted && t.acceptedHash == s.acceptedHash && t.valid == s.valid
    && t.e == s.e.(state := t.e.state) && (!s.valid ==> t.e == s.e)
  }

  lemma {:induction false} OtherSteps(c: Core, e: Event, k: nat)
    requires k < |c.slots| && !Polls(c, e, k)
    ensures |Next(c, e).slots| == |c.slots| && SamePolled(c.slots[k], Next(c, e).slots[k])
  {
    hide Apply, Clash, Clashes, Effective;
  }

  lemma PollStep(c: Core, e: Event, k: nat)
    requires Polls(c, e, k)
    ensures var a := Apply(c.slots[k], e.probe, e.read, e.raw);
            |Next(c, e).slots| == |c.slots| && Next(c, e).slots[k] == if a.changed then Revoke(a.slot) else a.slot
  {
  }

  lemma {:induction false} RunRemembers(wires: seq<Wiring>, events: seq<Event>, n: nat, k: nat)
    requires n <= |events| && k < |wires|
    ensures |Run(wires, events, n).slots| == |wires|
    ensures Remembers(Run(wires, events, n).slots[k], History(wires, events, n, k))
    decreases n
  {
    hide Next, Inv, Misses, Failures, Hash;
    RunKeepsInv(wires, events, n);
    if n == 0 {
      EmptyHistory(wires, k);
      assert Run(wires, events, 0).slots == BlankSlots(wires);
    } else {
      RunRemembers(wires, events, n - 1, k);
      assert Run(wires, events, n) == Next(Run(wires, events, n - 1), events[n - 1]);
      StepRemembers(Run(wires, events, n - 1), events[n - 1], k, History(wires, events, n - 1, k));
    }
  }

  lemma EmptyHistory(wires: seq<Wiring>, k: nat)
    requires k < |wires|
    ensures Remembers(BlankSlots(wires)[k], [])
  {
  }

  lemma {:induction false} StepRemembers(c: Core, e: Event, k: nat, h: seq<Poll>)
    requires k < |c.slots| && Remembers(c.slots[k], h)
    ensures |Next(c, e).slots| == |c.slots|
    ensures Remembers(Next(c, e).slots[k], h + if Polls(c, e, k) then [Poll(e.probe, e.read, e.raw)] else [])
  {
    hide Next, Apply;
    if Polls(c, e, k) {
      PollStep(c, e, k);
      ApplyRemembers(c.slots[k], h, Poll(e.probe, e.read, e.raw));
    } else {
      OtherSteps(c, e, k);
      assert h + [] == h;
    }
  }

  /** The slot already holds what the last poll read. */
  predicate Already(s: Slot, h: seq<Poll>) {
    h != [] && s.accepted && s.acceptedHash == Digest(Hash(h[|h| - 1].raw))
  }

  /** In every interleaving a slot's entry changes only when the slot is polled, and then exactly
      in one of three ways: a module vanishes after two polls in a row that found nobody, an empty
      slot becomes generic after three in a row that could not be read, and a descriptor not yet
      accepted is taken over after two reads in a row that were the same. */
  lemma {:induction false} EntryChangesExactly(wires: seq<Wiring>, events: seq<Event>, n: nat, k: nat)
    requires n < |events| && k < |wires|
    ensures |Run(wires, events, n).slots| == |Run(wires, events, n + 1).slots| == |wires|
    ensures var c, s, t := Run(wires, events, n), Run(wires, events, n).slots[k], Run(wires, events, n + 1).slots[k];
            var h := History(wires, events, n + 1, k);
            if !Polls(c, events[n], k) then SamePolled(s, t)
            else if Misses(h) >= 2 && s.e.state != Absent then t.e == NoEntry && !t.valid && t.revs == s.revs + 1
            else if Failures(h) >= 3 && s.e.state == Absent then
              t.e == NoEntry.(state := Generic, why := Some(Truncated)) && !t.valid && t.revs == s.revs + 1
            else if SameTwice(h) && !Already(s, h) then
              t.e == Accept(s, events[n].raw).e && Already(t, h) && t.revs == s.revs + 1
            else t.e == s.e && t.valid == s.valid && t.revs == s.revs && t.owner == s.owner
  {
    hide Next;
    var c, e, h := Run(wires, events, n), events[n], History(wires, events, n, k);
    RunRemembers(wires, events, n, k);
    RunRemembers(wires, events, n + 1, k);
    if Polls(c, e, k) {
      PollStep(c, e, k);
      ApplyChanges(c.slots[k], h, Poll(e.probe, e.read, e.raw));
      hide Apply, Misses, Failures, SameTwice, Already, Accept;
    } else {
      OtherSteps(c, e, k);
    }
  }

  lemma {:induction false} ApplyChanges(s: Slot, was: seq<Poll>, p: Poll)
    requires Remembers(s, was)
    ensures var h, a := was + [p], Apply(s, p.probe, p.read, p.raw);
            var t := if a.changed then Revoke(a.slot) else a.slot;
            if Misses(h) >= 2 && s.e.state != Absent then t.e == NoEntry && !t.valid && t.revs == s.revs + 1
            else if Failures(h) >= 3 && s.e.state == Absent then
              t.e == NoEntry.(state := Generic, why := Some(Truncated)) && !t.valid && t.revs == s.revs + 1
            else if SameTwice(h) && !Already(s, h) then
              t.e == Accept(s, p.raw).e && Already(t, h) && t.revs == s.revs + 1
            else t.e == s.e && t.valid == s.valid && t.revs == s.revs && t.owner == s.owner
  {
    hide Hash, ParseDesc;
    assert (was + [p])[..|was|] == was;
  }
}
