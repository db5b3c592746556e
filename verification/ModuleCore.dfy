/** Module discovery, conflict resolution and leases (components/stark_module/module_core.c).
    Every locked section is a step of a state machine; bus calls happen between steps. */
module ModuleCore {
  import opened Stark
  import opened ModuleDesc

  const MISS_LIMIT := 2
  const READ_LIMIT := 3
  const CAPS_KNOWN: set<nat> := {CAP_IR_TX, CAP_IR_RX, CAP_NFC, CAP_MOD_SPI, CAP_MOD_IRQ}
  const CAPS_WIRING: set<nat> := {CAP_MOD_SPI, CAP_MOD_IRQ}

  datatype SlotState = Absent | Known | Generic | Conflict

  datatype Wiring = Wiring(addr: nat, cs: int, irq0: int, irq1: int)

  /** What a slot's descriptor says, or why there is none. */
  datatype Entry = Entry(state: SlotState, id: nat, declared: set<nat>, unsupported: bool, why: Option<Reason>)

  const NoEntry := Entry(Absent, 0, {}, false, None)

  datatype Digest = Digest(h: bv32)

  /** revs counts the revocations of the slot's lease; the firmware's generation is revs
      modulo 2^32. */
  datatype Slot = Slot(e: Entry, wire: Wiring, owner: Option<string>, claimed: set<nat>, revs: nat,
                       misses: nat, readErrors: nat, valid: bool, seen: bool, accepted: bool,
                       seenHash: Digest, acceptedHash: Digest)

  function Gen(s: Slot): nat {
    s.revs % TWO32
  }

  /** FNV-1a. */
  function Hash(raw: seq<bv8>): bv32 {
    if raw == [] then 2166136261 else (Hash(raw[..|raw| - 1]) ^ (raw[|raw| - 1] as bv32)) * 16777619
  }

  function ClearEntry(s: Slot): Slot {
    s.(e := NoEntry, valid := false)
  }

  function MakeGeneric(s: Slot, why: Reason): Slot {
    s.(e := NoEntry.(state := Generic, why := Some(why)), valid := false)
  }

  function Accept(s: Slot, raw: seq<bv8>): Slot {
    match ParseDesc(raw)
    case Rejected(why) => MakeGeneric(s, why)
    case Good(d) =>
      if CapsSupported(d.caps) then
        s.(e := Entry(Known, d.id as nat, d.caps, false, None), valid := true)
      else s.(e := Entry(Generic, d.id as nat, d.caps, true, None), valid := false)
  }

  /** Every lease on the slot goes stale. */
  function Revoke(s: Slot): Slot {
    s.(revs := s.revs + 1, owner := None, claimed := {})
  }

  datatype Applied = Applied(slot: Slot, changed: bool)

  /** One slot's work after its bus calls. */
  function Apply(s: Slot, probe: Err, read: Err, raw: seq<bv8>): Applied {
    if probe != Ok then
      var t := s.(seen := false, readErrors := 0, misses := Min(s.misses + 1, Max(s.misses, MISS_LIMIT)));
      if t.misses < MISS_LIMIT || t.e.state == Absent then Applied(t, false)
      else Applied(ClearEntry(t.(accepted := false)), true)
    else if read != Ok then
      var t := s.(misses := 0, seen := false, readErrors := Min(s.readErrors + 1, Max(s.readErrors, READ_LIMIT)));
      if t.e.state != Absent || t.readErrors < READ_LIMIT then Applied(t, false)
      else Applied(MakeGeneric(t, Truncated), true)
    else
      var h := Digest(Hash(raw));
      var stable := s.seen && h == s.seenHash;
      var t := s.(misses := 0, readErrors := 0, seen := true, seenHash := h);
      if !stable || (t.accepted && h == t.acceptedHash) then Applied(t, false)
      else Applied(Accept(t.(accepted := true, acceptedHash := h), raw), true)
  }

  // ---- Conflicts -------------------------------------------------------------

  /** Both declare NFC, or they have the same id and either does. */
  predicate Clash(a: Slot, b: Slot) {
    && a.valid && b.valid
    && ((CAP_NFC in a.e.declared && CAP_NFC in b.e.declared) ||
        (a.e.id == b.e.id && (CAP_NFC in a.e.declared || CAP_NFC in b.e.declared)))
  }

  /** How many of the first m slots clash with slot k. */
  function Clashes(slots: seq<Slot>, k: nat, m: nat): nat
    requires k < |slots| && m <= |slots|
  {
    if m == 0 then 0
    else Clashes(slots, k, m - 1) + (if m - 1 != k && Clash(slots[k], slots[m - 1]) then 1 else 0)
  }

  /** A slot that has met n clashes. */
  function MarkedBy(s: Slot, n: nat): Slot {
    if !s.valid then s
    else if n == 0 then s.(e := s.e.(state := Known))
    else s.(e := s.e.(state := Conflict), revs := s.revs + n, owner := None, claimed := {})
  }

  /** Slot k after its clashes with the first m slots have been marked. */
  function Marked(slots: seq<Slot>, k: nat, m: nat): Slot
    requires k < |slots| && m <= |slots|
  {
    MarkedBy(slots[k], Clashes(slots, k, m))
  }

  function Resolved(slots: seq<Slot>, n: nat): (r: seq<Slot>)
    requires n <= |slots|
    ensures |r| == n && forall k :: 0 <= k < n ==> r[k] == Marked(slots, k, |slots|)
  {
    if n == 0 then [] else Resolved(slots, n - 1) + [Marked(slots, n - 1, |slots|)]
  }

  predicate AnyClash(slots: seq<Slot>) {
    exists j, k :: 0 <= j < |slots| && 0 <= k < |slots| && j != k && Clash(slots[j], slots[k])
  }

  function Withheld(slots: seq<Slot>): set<nat> {
    if AnyClash(slots) then {CAP_NFC} else {}
  }

  function Effective(slots: seq<Slot>, confirmed: set<nat>): set<nat> {
    (confirmed - Withheld(slots)) * CAPS_KNOWN - CAPS_WIRING
  }

  // ---- The state machine -----------------------------------------------------

  datatype Lease = Lease(slot: nat, gen: nat)

  /** A polling round in progress has handled the slots before `next`. */
  datatype Round = Idle | Polling(next: nat, changed: bool)

  datatype Core = Core(slots: seq<Slot>, confirmed: set<nat>, caps: set<nat>, round: Round)

  datatype Event =
    | StartRound
    | Polled(probe: Err, read: Err, raw: seq<bv8>)
    | EndRound
    | Confirm(bits: set<nat>, present: bool)
    | Claim(slot: nat, lines: set<nat>, claimant: Option<string>)
    | Release(lease: Lease)

  function Recompute(c: Core): Core {
    c.(slots := Resolved(c.slots, |c.slots|), caps := Effective(c.slots, c.confirmed))
  }

  function LeaseHeld(c: Core, l: Lease): bool {
    l.slot < |c.slots| && c.slots[l.slot].owner.Some? && Gen(c.slots[l.slot]) == l.gen
  }

  predicate Wired(w: Wiring, lines: set<nat>) {
    (CAP_MOD_SPI in lines ==> w.cs >= 0) && (CAP_MOD_IRQ in lines ==> w.irq0 >= 0 && w.irq1 >= 0)
  }

  function ClaimError(c: Core, slot: nat, lines: set<nat>, claimant: Option<string>): Err {
    if slot >= |c.slots| || claimant.None? || lines == {} || !(lines <= CAPS_WIRING) then InvalidArg
    else if c.slots[slot].e.state != Known then NotFound
    else if !(lines <= c.slots[slot].e.declared) || !Wired(c.slots[slot].wire, lines) then NotSupported
    else if c.slots[slot].owner.Some? then Busy
    else Ok
  }

  /** One locked section; an event the state does not allow leaves it alone. */
  function Next(c: Core, e: Event): Core {
    match e
    case StartRound => if c.round.Idle? then c.(round := Polling(0, false)) else c
    case Polled(probe, read, raw) =>
      if c.round.Idle? || c.round.next >= |c.slots| then c
      else
        var i := c.round.next;
        var a := Apply(c.slots[i], probe, read, raw);
        var s := if a.changed then Revoke(a.slot) else a.slot;
        c.(slots := c.slots[i := s], round := Polling(i + 1, c.round.changed || a.changed))
    case EndRound =>
      if c.round.Idle? || c.round.next < |c.slots| then c
      else if c.round.changed then Recompute(c.(round := Idle)) else c.(round := Idle)
    case Confirm(bits, present) =>
      Recompute(c.(confirmed := if present then c.confirmed + bits else c.confirmed - bits))
    case Claim(slot, lines, claimant) =>
      if ClaimError(c, slot, lines, claimant) != Ok then c
      else c.(slots := c.slots[slot := c.slots[slot].(owner := claimant, claimed := lines)])
    case Release(l) =>
      if LeaseHeld(c, l) then c.(slots := c.slots[l.slot := Revoke(c.slots[l.slot])]) else c
  }

  function BlankSlots(wires: seq<Wiring>): (slots: seq<Slot>)
    ensures |slots| == |wires| && forall k :: 0 <= k < |wires| ==>
              slots[k] == Slot(NoEntry, wires[k], None, {}, 0, 0, 0, false, false, false, Digest(0), Digest(0))
  {
    if wires == [] then []
    else BlankSlots(wires[..|wires| - 1]) +
         [Slot(NoEntry, wires[|wires| - 1], None, {}, 0, 0, 0, false, false, false, Digest(0), Digest(0))]
  }

  function Start(wires: seq<Wiring>): Core {
    Core(BlankSlots(wires), {}, {}, Idle)
  }

  /** The state after the first n steps of an interleaving. */
  function Run(wires: seq<Wiring>, events: seq<Event>, n: nat): Core
    requires n <= |events|
  {
    if n == 0 then Start(wires) else Next(Run(wires, events, n - 1), events[n - 1])
  }

  // ---- What every step keeps -------------------------------------------------

  predicate SlotOk(s: Slot) {
    && (s.valid <==> s.e.state == Known || s.e.state == Conflict)
    && (s.owner.None? ==> s.claimed == {})
    && (s.owner.Some? ==>
          s.e.state == Known && s.claimed != {} && s.claimed <= s.e.declared && Wired(s.wire, s.claimed))
  }

  /** Slot k is in conflict exactly when another valid slot clashes with it. */
  predicate Judged(slots: seq<Slot>, k: nat)
    requires k < |slots|
  {
    slots[k].valid ==>
      (slots[k].e.state == Conflict <==> exists j :: 0 <= j < |slots| && j != k && Clash(slots[k], slots[j]))
  }

  predicate Settled(c: Core) {
    && (forall k :: 0 <= k < |c.slots| ==> Judged(c.slots, k))
    && c.caps == Effective(c.slots, c.confirmed)
  }

  predicate Pending(c: Core) {
    c.round.Polling? && c.round.changed
  }

  predicate Inv(c: Core) {
    && (forall k :: 0 <= k < |c.slots| ==> SlotOk(c.slots[k]))
    && c.caps <= c.confirmed
    && (!Pending(c) ==> Settled(c))
  }

  lemma {:induction false} ClashesPositive(slots: seq<Slot>, k: nat, m: nat)
    requires k < |slots| && m <= |slots|
    ensures Clashes(slots, k, m) > 0 <==> exists j :: 0 <= j < m && j != k && Clash(slots[k], slots[j])
    decreases m
  {
    if m > 0 {
      ClashesPositive(slots, k, m - 1);
    }
  }

  /** Marking changes neither which slots are valid nor what they declare. */
  lemma {:induction false} ResolvedKeepsClashes(slots: seq<Slot>, j: nat, k: nat)
    requires j < |slots| && k < |slots|
    ensures var r := Resolved(slots, |slots|); Clash(r[j], r[k]) <==> Clash(slots[j], slots[k])
  {
    hide Marked;
    MarkedKeeps(slots, j, |slots|);
    MarkedKeeps(slots, k, |slots|);
    var r := Resolved(slots, |slots|);
    assert r[j] == Marked(slots, j, |slots|) && r[k] == Marked(slots, k, |slots|);
  }

  lemma {:induction false} MarkedKeeps(slots: seq<Slot>, k: nat, m: nat)
    requires k < |slots| && m <= |slots|
    ensures var s := Marked(slots, k, m);
            s.valid == slots[k].valid && s.e.id == slots[k].e.id && s.e.declared == slots[k].e.declared
  {
    hide Clashes, Clash;
  }

  lemma {:induction false} RecomputeSettles(c: Core)
    requires forall k :: 0 <= k < |c.slots| ==> SlotOk(c.slots[k])
    ensures Settled(Recompute(c)) && Inv(Recompute(c))
  {
    var r := Resolved(c.slots, |c.slots|);
    forall k | 0 <= k < |c.slots|
      ensures Judged(r, k) && SlotOk(r[k])
    {
      ClashesPositive(c.slots, k, |c.slots|);
      assert r[k] == Marked(c.slots, k, |c.slots|);
      forall j | 0 <= j < |c.slots|
        ensures Clash(r[k], r[j]) <==> Clash(c.slots[k], c.slots[j])
      {
        ResolvedKeepsClashes(c.slots, k, j);
      }
    }
    forall j, k | 0 <= j < |c.slots| && 0 <= k < |c.slots|
      ensures Clash(r[j], r[k]) <==> Clash(c.slots[j], c.slots[k])
    {
      ResolvedKeepsClashes(c.slots, j, k);
    }
    assert AnyClash(r) <==> AnyClash(c.slots);
  }

  /** A slot update that leaves the entry's judgement fields alone keeps the judgement. */
  lemma {:induction false} SameEntryStaysSettled(c: Core, i: nat, s: Slot)
    requires i < |c.slots| && Settled(c) && s.e == c.slots[i].e && s.valid == c.slots[i].valid
    ensures Settled(c.(slots := c.slots[i := s]))
  {
    var t := c.slots[i := s];
    forall j, k | 0 <= j < |t| && 0 <= k < |t|
      ensures Clash(t[j], t[k]) <==> Clash(c.slots[j], c.slots[k])
    {
    }
    forall k | 0 <= k < |t|
      ensures Judged(t, k)
    {
      assert Judged(c.slots, k);
    }
    assert AnyClash(t) <==> AnyClash(c.slots);
  }

  lemma ApplyKeepsSlotOk(s: Slot, probe: Err, read: Err, raw: seq<bv8>)
    requires SlotOk(s)
    ensures var a := Apply(s, probe, read, raw);
            && SlotOk(if a.changed then Revoke(a.slot) else a.slot)
            && (!a.changed ==> a.slot.e == s.e && a.slot.valid == s.valid)
  {
  }

  /** Every locked section keeps the invariant. */
  lemma {:induction false} NextKeepsInv(c: Core, e: Event)
    requires Inv(c)
    ensures Inv(Next(c, e))
  {
    match e {
      case StartRound =>
      case Polled(probe, read, raw) =>
        if c.round.Polling? && c.round.next < |c.slots| {
          var i := c.round.next;
          ApplyKeepsSlotOk(c.slots[i], probe, read, raw);
          var a := Apply(c.slots[i], probe, read, raw);
          if !a.changed && !c.round.changed {
            SameEntryStaysSettled(c, i, a.slot);
          }
        }
      case EndRound =>
        if c.round.Polling? && c.round.next >= |c.slots| && c.round.changed {
          RecomputeSettles(c.(round := Idle));
        }
      case Confirm(bits, present) =>
        RecomputeSettles(c.(confirmed := if present then c.confirmed + bits else c.confirmed - bits));
      case Claim(slot, lines, claimant) =>
        if ClaimError(c, slot, lines, claimant) == Ok && !Pending(c) {
          SameEntryStaysSettled(c, slot, c.slots[slot].(owner := claimant, claimed := lines));
        }
      case Release(l) =>
        if LeaseHeld(c, l) && !Pending(c) {
          SameEntryStaysSettled(c, l.slot, Revoke(c.slots[l.slot]));
        }
    }
  }

  // ---- Whole runs ------------------------------------------------------------

  lemma {:induction false} StartIsOk(wires: seq<Wiring>)
    ensures Inv(Start(wires)) && |Start(wires).slots| == |wires|
  {
    var slots := Start(wires).slots;
    assert !AnyClash(slots);
    assert forall k :: 0 <= k < |slots| ==> !slots[k].valid;
  }

  lemma NextLength(c: Core, e: Event)
    ensures |Next(c, e).slots| == |c.slots|
  {
  }

  /** At every lock boundary of every interleaving: an owned slot is KNOWN and its descriptor
      and wiring cover the claimed lines, the effective capabilities are among those drivers
      confirmed, and unless a change of the round in progress is pending, conflicts and
      effective capabilities are exactly what the slots and confirmations say. */
  lemma {:induction false} RunKeepsInv(wires: seq<Wiring>, events: seq<Event>, n: nat)
    requires n <= |events|
    ensures Inv(Run(wires, events, n)) && |Run(wires, events, n).slots| == |wires|
    decreases n
  {
    hide Next, Inv, Start;
    if n == 0 {
      StartIsOk(wires);
    } else {
      RunKeepsInv(wires, events, n - 1);
      NextLength(Run(wires, events, n - 1), events[n - 1]);
      NextKeepsInv(Run(wires, events, n - 1), events[n - 1]);
    }
  }

  /** Step by step, a slot is revoked or keeps its owner, and its wiring never changes. */
  predicate Follows(a: Slot, b: Slot) {
    && b.wire == a.wire && a.revs <= b.revs
    && (a.revs == b.revs && a.owner.Some? ==> b.owner == a.owner && b.claimed == a.claimed)
  }

  lemma {:induction false} NextFollows(c: Core, e: Event, k: nat)
    requires k < |c.slots|
    ensures |Next(c, e).slots| == |c.slots| && Follows(c.slots[k], Next(c, e).slots[k])
  {
    hide Apply, Revoke, Effective;
    match e {
      case Polled(probe, read, raw) => PollFollows(c.slots[k], probe, read, raw);
      case Release(_) => RevokeFollows(c.slots[k]);
      case _ =>
    }
  }

  lemma {:induction false} PollFollows(s: Slot, probe: Err, read: Err, raw: seq<bv8>)
    ensures var a := Apply(s, probe, read, raw); Follows(s, if a.changed then Revoke(a.slot) else a.slot)
  {
    hide Hash;
  }

  lemma RevokeFollows(s: Slot)
    ensures Follows(s, Revoke(s))
  {
  }

  lemma {:induction false} RunFollows(wires: seq<Wiring>, events: seq<Event>, m: nat, n: nat, k: nat)
    requires m <= n <= |events| && k < |wires|
    ensures |Run(wires, events, m).slots| == |Run(wires, events, n).slots| == |wires|
    ensures Follows(Run(wires, events, m).slots[k], Run(wires, events, n).slots[k])
    decreases n
  {
    hide Next;
    if n == m {
      RunKeepsInv(wires, events, n);
    } else {
      RunFollows(wires, events, m, n - 1, k);
      NextFollows(Run(wires, events, n - 1), events[n - 1], k);
    }
  }

  /** Step t of the run was a claim that succeeded and gave out lease l. */
  predicate IssuedAt(wires: seq<Wiring>, events: seq<Event>, t: nat, l: Lease) {
    && t < |events| && events[t].Claim?
    && var c := Run(wires, events, t);
       ClaimError(c, events[t].slot, events[t].lines, events[t].claimant) == Ok
       && l == Lease(events[t].slot, Gen(c.slots[events[t].slot]))
  }

  /** Revocations of the lease's slot between steps t and n. */
  function RevokedSince(wires: seq<Wiring>, events: seq<Event>, t: nat, n: nat, k: nat): int
    requires t <= n <= |events| && k < |Run(wires, events, t).slots| && k < |Run(wires, events, n).slots|
  {
    Run(wires, events, n).slots[k].revs - Run(wires, events, t).slots[k].revs
  }

  lemma {:induction false} SameRemainder(a: nat, b: nat)
    requires a <= b
    ensures a % TWO32 == b % TWO32 <==> (b - a) % TWO32 == 0
  {
    var q, r := a / TWO32, a % TWO32;
    var p, u := b / TWO32, b % TWO32;
    assert b - a == TWO32 * (p - q) + (u - r);
    if u != r {
      assert -TWO32 < u - r < TWO32;
      if u > r {
        assert (b - a) % TWO32 == u - r;
      } else {
        assert b - a == TWO32 * (p - q - 1) + (TWO32 + u - r);
        assert (b - a) % TWO32 == TWO32 + u - r;
      }
    }
  }

  /** A lease is valid exactly while its slot is owned and has been revoked a multiple of 2^32
      times since: with fewer than 2^32 revocations, exactly until the first one. */
  lemma {:induction false} LeaseValidity(wires: seq<Wiring>, events: seq<Event>, t: nat, l: Lease, n: nat)
    requires IssuedAt(wires, events, t, l) && t < n <= |events|
    ensures l.slot < |Run(wires, events, t).slots| == |Run(wires, events, n).slots|
    ensures LeaseHeld(Run(wires, events, n), l) <==>
              Run(wires, events, n).slots[l.slot].owner.Some? && RevokedSince(wires, events, t, n, l.slot) % TWO32 == 0
    ensures RevokedSince(wires, events, t, n, l.slot) < TWO32 ==>
              (LeaseHeld(Run(wires, events, n), l) <==> RevokedSince(wires, events, t, n, l.slot) == 0)
  {
    hide Apply, Resolved, Recompute;
    var k := l.slot;
    RunKeepsInv(wires, events, t);
    RunFollows(wires, events, t, n, k);
    RunFollows(wires, events, t + 1, n, k);
    var c, d := Run(wires, events, t), Run(wires, events, t + 1);
    assert d == Next(c, events[t]);
    assert d.slots[k].owner.Some? && d.slots[k].revs == c.slots[k].revs;
    SameRemainder(c.slots[k].revs, Run(wires, events, n).slots[k].revs);
  }

  /** A lease once stale never becomes valid again (fewer than 2^32 revocations). */
  lemma {:induction false} StaleStaysStale(wires: seq<Wiring>, events: seq<Event>, t: nat, l: Lease, m: nat, n: nat)
    requires IssuedAt(wires, events, t, l) && t < m <= n <= |events| && l.slot < |wires|
    requires |Run(wires, events, t).slots| == |Run(wires, events, n).slots| == |wires|
    requires RevokedSince(wires, events, t, n, l.slot) < TWO32
    requires !LeaseHeld(Run(wires, events, m), l)
    ensures !LeaseHeld(Run(wires, events, n), l)
  {
    hide Next;
    LeaseValidity(wires, events, t, l, m);
    LeaseValidity(wires, events, t, l, n);
    RunFollows(wires, events, t, m, l.slot);
    RunFollows(wires, events, m, n, l.slot);
  }

  /** Of all the leases ever given out for a slot, at most one is valid at a time (fewer than
      2^32 revocations). */
  lemma {:induction false} OneLeasePerSlot(wires: seq<Wiring>, events: seq<Event>, t: nat, l: Lease, u: nat, o: Lease,
                                           n: nat)
    requires IssuedAt(wires, events, t, l) && IssuedAt(wires, events, u, o) && t < u < n <= |events|
    requires l.slot == o.slot < |wires|
    requires |Run(wires, events, t).slots| == |Run(wires, events, n).slots| == |wires|
    requires RevokedSince(wires, events, t, n, l.slot) < TWO32
    ensures !(LeaseHeld(Run(wires, events, n), l) && LeaseHeld(Run(wires, events, n), o))
  {
    hide Next;
    LeaseValidity(wires, events, t, l, n);
    LeaseValidity(wires, events, u, o, n);
    LeaseValidity(wires, events, t, l, u);
    RunFollows(wires, events, t, u, l.slot);
    RunFollows(wires, events, u, n, l.slot);
    assert Run(wires, events, u).slots[o.slot].owner.None?;
  }

  // ---- The implementation ----------------------------------------------------

  /** The slots after the pairs (i', j') before (i, j) have been judged: slot k has met the
      first Met(i, j, k) slots. */
  function Met(n: nat, i: nat, j: nat, k: nat): (m: nat)
    requires i <= n && i < j <= n + 1 && k < n
    ensures m <= n
  {
    if k < i then n else if k == i then Min(j, n) else if k < j then i + 1 else i
  }

  lemma {:induction false} MetSelf(slots: seq<Slot>, k: nat)
    requires k < |slots|
    ensures Clashes(slots, k, k + 1) == Clashes(slots, k, k)
  {
  }

  /** Judging the pair (i, j) takes both slots one further. */
  lemma ClashesStep(slots: seq<Slot>, i: nat, j: nat)
    requires i < j < |slots|
    ensures Clashes(slots, i, j + 1) == Clashes(slots, i, j) + (if Clash(slots[i], slots[j]) then 1 else 0)
    ensures Clashes(slots, j, i + 1) == Clashes(slots, j, i) + (if Clash(slots[i], slots[j]) then 1 else 0)
  {
  }

  /** The clashes slot k has met before the pair (i, j). */
  function Hits(was: seq<Slot>, i: nat, j: nat, k: nat): nat
    requires i <= |was| && i < j <= |was| + 1 && k < |was|
  {
    Clashes(was, k, Met(|was|, i, j, k))
  }

  ghost predicate AnyHit(was: seq<Slot>, i: nat, j: nat)
    requires i <= |was| && i < j <= |was| + 1
  {
    exists k :: 0 <= k < |was| && Hits(was, i, j, k) > 0
  }

  /** `now` is `was` with every pair before (i, j) judged. */
  ghost predicate JudgedTo(was: seq<Slot>, now: seq<Slot>, i: nat, j: nat)
    requires i <= |was| && i < j <= |was| + 1
  {
    |now| == |was| && forall k :: 0 <= k < |was| ==> now[k] == Marked(was, k, Met(|was|, i, j, k))
  }

  lemma ClashIsMutual(a: Slot, b: Slot)
    ensures Clash(a, b) ==> a.valid && b.valid && Clash(b, a)
  {
  }

  /** What judging the pair (i, j) does to slot k. */
  lemma {:induction false} SlotJudged(was: seq<Slot>, now: Slot, i: nat, j: nat, k: nat)
    requires i < j < |was| && k < |was| && was[k].valid
    requires now == Marked(was, k, Met(|was|, i, j, k))
    requires Hits(was, i, j + 1, k) == Hits(was, i, j, k) + 1
    ensures Revoke(now.(e := now.e.(state := Conflict))) == Marked(was, k, Met(|was|, i, j + 1, k))
  {
    hide Clashes, Met, Clash;
  }

  lemma {:induction false} SlotPassed(was: seq<Slot>, i: nat, j: nat, k: nat)
    requires i < j < |was| && k < |was|
    requires Hits(was, i, j + 1, k) == Hits(was, i, j, k)
    ensures Marked(was, k, Met(|was|, i, j + 1, k)) == Marked(was, k, Met(|was|, i, j, k))
  {
    hide Clashes, Met, Clash, MarkedBy;
  }

  /** What judging the pair (i, j) does to the slots. */
  lemma {:induction false} PairJudged(was: seq<Slot>, before: seq<Slot>, i: nat, j: nat, after: seq<Slot>)
    requires i < j < |was| && was[i].valid && JudgedTo(was, before, i, j)
    requires after == if !Clash(was[i], was[j]) then before
                      else before[i := Revoke(before[i].(e := before[i].e.(state := Conflict)))]
                                 [j := Revoke(before[j].(e := before[j].e.(state := Conflict)))]
    ensures JudgedTo(was, after, i, j + 1)
  {
    hide Marked, Clashes, Met, Clash, Hits, Revoke;
    ClashIsMutual(was[i], was[j]);
    HitsStep(was, i, j);
    forall k | 0 <= k < |was|
      ensures after[k] == Marked(was, k, Met(|was|, i, j + 1, k))
    {
      assert Hits(was, i, j + 1, k) ==
             Hits(was, i, j, k) + (if (k == i || k == j) && Clash(was[i], was[j]) then 1 else 0);
      if (k == i || k == j) && Clash(was[i], was[j]) {
        SlotJudged(was, before[k], i, j, k);
      } else {
        SlotPassed(was, i, j, k);
      }
    }
  }

  lemma {:induction false} PairHits(was: seq<Slot>, i: nat, j: nat)
    requires i < j < |was|
    ensures AnyHit(was, i, j + 1) <==> Clash(was[i], was[j]) || AnyHit(was, i, j)
  {
    hide Clash, Hits;
    HitsStep(was, i, j);
    if AnyHit(was, i, j) {
      var k :| 0 <= k < |was| && Hits(was, i, j, k) > 0;
      assert Hits(was, i, j + 1, k) > 0;
    }
    if Clash(was[i], was[j]) {
      assert Hits(was, i, j + 1, i) == Hits(was, i, j, i) + 1;
    }
    if AnyHit(was, i, j + 1) {
      var k :| 0 <= k < |was| && Hits(was, i, j + 1, k) > 0;
      assert Hits(was, i, j, k) > 0 || Clash(was[i], was[j]);
    }
  }

  lemma {:induction false} HitsStep(was: seq<Slot>, i: nat, j: nat)
    requires i < j < |was|
    ensures forall k :: 0 <= k < |was| ==>
              Hits(was, i, j + 1, k) == Hits(was, i, j, k) +
                (if (k == i || k == j) && Clash(was[i], was[j]) then 1 else 0)
  {
    ClashesStep(was, i, j);
  }

  /** The end of row i, or a row whose slot is invalid, is the start of the next. */
  lemma {:induction false} RowEnds(was: seq<Slot>, now: seq<Slot>, i: nat, j: nat)
    requires i < |was| && i < j <= |was| && JudgedTo(was, now, i, j) && (!was[i].valid || j == |was|)
    ensures JudgedTo(was, now, i + 1, i + 2)
    ensures AnyHit(was, i + 1, i + 2) <==> AnyHit(was, i, j)
  {
    forall k | 0 <= k < |was|
      ensures Hits(was, i + 1, i + 2, k) == Hits(was, i, j, k)
      ensures Marked(was, k, Met(|was|, i + 1, i + 2, k)) == Marked(was, k, Met(|was|, i, j, k))
    {
      if !was[i].valid {
        NoClashes(was, i, j);
        NoClashes(was, i, |was|);
      }
      if k == i + 1 {
        MetSelf(was, k);
      }
    }
    if AnyHit(was, i, j) {
      var k :| 0 <= k < |was| && Hits(was, i, j, k) > 0;
      assert Hits(was, i + 1, i + 2, k) > 0;
    }
  }

  lemma {:induction false} NoClashes(was: seq<Slot>, i: nat, m: nat)
    requires i < |was| && !was[i].valid && m <= |was|
    ensures Clashes(was, i, m) == 0
    decreases m
  {
    if m > 0 {
      NoClashes(was, i, m - 1);
    }
  }

  lemma RowStarts(was: seq<Slot>, now: seq<Slot>, i: nat)
    requires i < |was| && JudgedTo(was, now, i, i + 1)
    ensures |now| == |was| && now[i].valid == was[i].valid
  {
  }

  lemma {:induction false} NothingJudged(was: seq<Slot>, now: seq<Slot>)
    requires |now| == |was|
    requires forall k :: 0 <= k < |was| ==>
               now[k] == if was[k].valid then was[k].(e := was[k].e.(state := Known)) else was[k]
    ensures JudgedTo(was, now, 0, 1) && !AnyHit(was, 0, 1)
  {
    forall k | 0 <= k < |was|
      ensures Hits(was, 0, 1, k) == 0 && now[k] == Marked(was, k, Met(|was|, 0, 1, k))
    {
      if k == 0 {
        MetSelf(was, 0);
      }
    }
  }

  lemma {:induction false} AllJudged(was: seq<Slot>, now: seq<Slot>)
    requires JudgedTo(was, now, |was|, |was| + 1)
    ensures now == Resolved(was, |was|) && (AnyHit(was, |was|, |was| + 1) <==> AnyClash(was))
  {
    forall k | 0 <= k < |was|
      ensures Hits(was, |was|, |was| + 1, k) > 0 <==> exists j :: 0 <= j < |was| && j != k && Clash(was[k], was[j])
    {
      ClashesPositive(was, k, |was|);
    }
    if AnyClash(was) {
      var j, k :| 0 <= j < |was| && 0 <= k < |was| && j != k && Clash(was[j], was[k]);
      assert Hits(was, |was|, |was| + 1, j) > 0;
    }
  }

  lemma {:induction false} RunOfLonger(wires: seq<Wiring>, events: seq<Event>, e: Event, n: nat)
    requires n <= |events|
    ensures Run(wires, events + [e], n) == Run(wires, events, n)
    decreases n
  {
    hide Next, Start;
    if n > 0 {
      RunOfLonger(wires, events, e, n - 1);
    }
  }

  /** The events a polling round adds by itself, without those of other tasks. */
  function Own(events: seq<Event>): (r: seq<Event>)
    ensures |r| <= |events|
  {
    if events == [] then []
    else
      var e := events[|events| - 1];
      Own(events[..|events| - 1]) + (if e.StartRound? || e.Polled? || e.EndRound? then [e] else [])
  }

  lemma {:induction false} OwnOfLonger(events: seq<Event>, from: nat, e: Event)
    requires from <= |events|
    ensures Own((events + [e])[from..]) ==
            Own(events[from..]) + (if e.StartRound? || e.Polled? || e.EndRound? then [e] else [])
  {
    var s := (events + [e])[from..];
    assert s[..|s| - 1] == events[from..];
  }

  /** A round's own events while it polls: the start, and a poll of each slot so far. */
  ghost predicate OwnSoFar(own: seq<Event>, i: nat) {
    |own| == i + 1 && own[0] == Event.StartRound && forall k :: 1 <= k <= i ==> own[k].Polled?
  }

  lemma OwnPolled(own: seq<Event>, i: nat, e: Event)
    requires OwnSoFar(own, i) && e.Polled?
    ensures OwnSoFar(own + [e], i + 1)
  {
  }

  class Modules {
    const wires: seq<Wiring>
    var slots: seq<Slot>
    var confirmed: set<nat>
    var caps: set<nat>
    var round: Round
    ghost var log: seq<Event>

    ghost function State(): Core
      reads this
    {
      Core(slots, confirmed, caps, round)
    }

    /** The state is what the locked sections logged so far make of the initial one. */
    ghost predicate Valid()
      reads this
    {
      State() == Run(wires, log, |log|) && |slots| == |wires|
    }

    constructor (wires: seq<Wiring>)
      ensures Valid() && this.wires == wires && log == []
    {
      this.wires := wires;
      slots, confirmed, caps, round := BlankSlots(wires), {}, {}, Idle;
      log := [];
    }

    /** Marks conflicting slots and returns the capabilities they withhold. */
    method ResolveConflicts() returns (withheld: set<nat>)
      modifies this`slots
      ensures slots == Resolved(old(slots), |old(slots)|) && withheld == Withheld(old(slots))
    {
      hide JudgedTo, AnyHit, Marked, Met, Hits, Clash;
      ghost var was := slots;
      var n := |slots|;
      withheld := {};
      MarkKnown();
      NothingJudged(was, slots);
      var i := 0;
      while i < n
        invariant i <= n == |slots| == |was| && JudgedTo(was, slots, i, i + 1)
        invariant withheld == if AnyHit(was, i, i + 1) then {CAP_NFC} else {}
      {
        RowStarts(was, slots, i);
        var j := i + 1;
        while slots[i].valid && j < n
          invariant i < j <= n == |slots| == |was| && JudgedTo(was, slots, i, j)
          invariant withheld == if AnyHit(was, i, j) then {CAP_NFC} else {}
          invariant slots[i].valid == was[i].valid
          decreases n - j
        {
          var exclusive := JudgePair(was, i, j);
          withheld := withheld + exclusive;
          j := j + 1;
        }
        RowEnds(was, slots, i, j);
        i := i + 1;
      }
      AllJudged(was, slots);
    }

    method MarkKnown()
      modifies this`slots
      ensures |slots| == |old(slots)|
      ensures forall k :: 0 <= k < |slots| ==>
                slots[k] == if old(slots)[k].valid then old(slots)[k].(e := old(slots)[k].e.(state := Known))
                            else old(slots)[k]
    {
      var i := 0;
      while i < |slots|
        invariant i <= |slots| == |old(slots)|
        invariant forall k :: 0 <= k < |slots| ==>
                    slots[k] == if k < i && old(slots)[k].valid
                                then old(slots)[k].(e := old(slots)[k].e.(state := Known)) else old(slots)[k]
      {
        if slots[i].valid {
          slots := slots[i := slots[i].(e := slots[i].e.(state := Known))];
        }
        i := i + 1;
      }
    }

    /** Slots i and j, both valid or j skipped: conflict marks both and revokes their leases. */
    method JudgePair(ghost was: seq<Slot>, i: nat, j: nat) returns (exclusive: set<nat>)
      requires i < j < |slots| == |was| && slots[i].valid && JudgedTo(was, slots, i, j)
      modifies this`slots
      ensures |slots| == |was| && JudgedTo(was, slots, i, j + 1)
      ensures exclusive == if Clash(was[i], was[j]) then {CAP_NFC} else {}
      ensures AnyHit(was, i, j + 1) <==> Clash(was[i], was[j]) || AnyHit(was, i, j)
      ensures slots[i].valid == was[i].valid
    {
      hide Marked, Met;
      MarkedKeeps(was, i, Met(|was|, i, j, i));
      MarkedKeeps(was, j, Met(|was|, i, j, j));
      ghost var before := slots;
      var a, b := slots[i], slots[j];
      exclusive := {};
      if b.valid {
        var either := (a.e.declared + b.e.declared) * {CAP_NFC};
        var both := a.e.declared * b.e.declared * {CAP_NFC};
        if both != {} || (a.e.id == b.e.id && either != {}) {
          assert CAP_NFC in either;
          slots := slots[i := Revoke(a.(e := a.e.(state := Conflict)))][j := Revoke(b.(e := b.e.(state := Conflict)))];
          exclusive := either;
        } else {
          assert CAP_NFC in a.e.declared && CAP_NFC in b.e.declared ==> CAP_NFC in both;
          assert CAP_NFC in a.e.declared || CAP_NFC in b.e.declared ==> CAP_NFC in either;
        }
      }
      PairJudged(was, before, i, j, slots);
      PairHits(was, i, j);
      MarkedKeeps(was, i, Met(|was|, i, j + 1, i));
    }

    ghost method Logged(e: Event, before: Core)
      requires before == Run(wires, log, |log|) && State() == Next(before, e) && |slots| == |wires|
      modifies this`log
      ensures Valid() && log == old(log) + [e]
    {
      RunOfLonger(wires, log, e, |log|);
      log := log + [e];
    }

    method Recalculate() returns (changed: bool)
      modifies this`slots, this`caps
      ensures State() == Recompute(old(State())) && |slots| == |old(slots)|
      ensures changed <==> caps != old(caps)
    {
      var withheld := ResolveConflicts();
      var now := (confirmed - withheld) * CAPS_KNOWN - CAPS_WIRING;
      changed := now != caps;
      caps := now;
    }

    method StartRound()
      requires Valid() && round.Idle?
      modifies this
      ensures Valid() && log == old(log) + [Event.StartRound] && State() == Next(old(State()), Event.StartRound)
    {
      ghost var before := State();
      round := Polling(0, false);
      Logged(Event.StartRound, before);
    }

    /** The locked section after one slot's bus calls. */
    method PollSlot(probe: Err, read: Err, raw: seq<bv8>) returns (changed: bool)
      requires Valid() && round.Polling? && round.next < |slots|
      modifies this
      ensures Valid() && log == old(log) + [Polled(probe, read, raw)]
      ensures State() == Next(old(State()), Polled(probe, read, raw))
      ensures round == Polling(old(round).next + 1, old(round).changed || changed)
      ensures changed <==> Apply(old(slots)[old(round).next], probe, read, raw).changed
    {
      hide Apply;
      ghost var before := State();
      var i := round.next;
      var s;
      s, changed := ApplyTo(slots[i], probe, read, raw);
      if changed {
        s := Revoke(s);
      }
      slots := slots[i := s];
      round := Polling(i + 1, round.changed || changed);
      Logged(Polled(probe, read, raw), before);
    }

    method EndRound()
      requires Valid() && round.Polling? && round.next == |slots|
      modifies this
      ensures Valid() && log == old(log) + [Event.EndRound] && State() == Next(old(State()), Event.EndRound)
      ensures round == Idle
    {
      hide Recompute;
      ghost var before := State();
      var changed := round.changed;
      round := Idle;
      if changed {
        var _ := Recalculate();
      }
      Logged(Event.EndRound, before);
    }

    method ConfirmCaps(bits: set<nat>, present: bool) returns (changed: bool)
      requires Valid()
      modifies this
      ensures Valid() && log == old(log) + [Confirm(bits, present)]
      ensures State() == Next(old(State()), Confirm(bits, present))
      ensures round == old(round) && (changed <==> caps != old(caps))
    {
      ghost var before := State();
      if present {
        confirmed := confirmed + bits;
      } else {
        confirmed := confirmed - bits;
      }
      changed := Recalculate();
      Logged(Confirm(bits, present), before);
    }

    method ClaimLines(slot: nat, lines: set<nat>, claimant: Option<string>) returns (err: Err, lease: Lease)
      requires Valid()
      modifies this
      ensures Valid() && log == old(log) + [Claim(slot, lines, claimant)]
      ensures State() == Next(old(State()), Claim(slot, lines, claimant)) && round == old(round)
      ensures err == ClaimError(old(State()), slot, lines, claimant)
      ensures err == Ok ==> IssuedAt(wires, log, |old(log)|, lease) && LeaseHeld(State(), lease)
    {
      ghost var before := State();
      err, lease := Ok, Lease(0, 0);
      if slot >= |slots| || claimant.None? || lines == {} || !(lines <= CAPS_WIRING) {
        err := InvalidArg;
      } else {
        var s := slots[slot];
        var wired := (CAP_MOD_SPI !in lines || s.wire.cs >= 0) &&
                     (CAP_MOD_IRQ !in lines || (s.wire.irq0 >= 0 && s.wire.irq1 >= 0));
        if s.e.state != Known {
          err := NotFound;
        } else if s.e.declared * lines != lines || !wired {
          assert lines <= s.e.declared ==> s.e.declared * lines == lines;
          err := NotSupported;
        } else if s.owner.Some? {
          assert lines <= s.e.declared;
          err := Busy;
        } else {
          assert lines <= s.e.declared;
          slots := slots[slot := s.(owner := claimant, claimed := lines)];
          lease := Lease(slot, Gen(s));
        }
      }
      RunOfLonger(wires, log, Claim(slot, lines, claimant), |log|);
      Logged(Claim(slot, lines, claimant), before);
    }

    method ReleaseLease(l: Lease)
      requires Valid()
      modifies this
      ensures Valid() && log == old(log) + [Release(l)]
      ensures State() == Next(old(State()), Release(l)) && round == old(round)
    {
      ghost var before := State();
      if l.slot < |slots| && slots[l.slot].owner.Some? && Gen(slots[l.slot]) == l.gen {
        slots := slots[l.slot := Revoke(slots[l.slot])];
      }
      Logged(Release(l), before);
    }

    /** A lease's pins: only for a valid lease, only those of the claimed lines, and those are
        wired. */
    method LeasePins(l: Lease) returns (err: Err, cs: int, irq0: int, irq1: int)
      requires Valid()
      ensures err == if LeaseHeld(State(), l) then Ok else Err.State
      ensures err == Ok ==>
                && (if CAP_MOD_SPI in slots[l.slot].claimed then cs == wires[l.slot].cs && cs >= 0 else cs == -1)
                && (if CAP_MOD_IRQ in slots[l.slot].claimed
                    then irq0 == wires[l.slot].irq0 && irq1 == wires[l.slot].irq1 && irq0 >= 0 && irq1 >= 0
                    else irq0 == -1 && irq1 == -1)
    {
      RunKeepsInv(wires, log, |log|);
      if l.slot < |slots| {
        RunFollows(wires, log, 0, |log|, l.slot);
      }
      err, cs, irq0, irq1 := Err.State, -1, -1, -1;
      if l.slot < |slots| && slots[l.slot].owner.Some? && Gen(slots[l.slot]) == l.gen {
        var s := slots[l.slot];
        assert SlotOk(s);
        err := Ok;
        cs := if CAP_MOD_SPI in s.claimed then s.wire.cs else -1;
        irq0 := if CAP_MOD_IRQ in s.claimed then s.wire.irq0 else -1;
        irq1 := if CAP_MOD_IRQ in s.claimed then s.wire.irq1 else -1;
      }
    }

    /** Between two locked sections other tasks confirm, claim and release as they like. */
    method Others()
      requires Valid()
      modifies this
      ensures Valid() && round == old(round) && old(log) <= log
      ensures forall from :: 0 <= from <= |old(log)| ==> Own(log[from..]) == Own(old(log)[from..])
    {
      var n: nat := *;
      while n > 0
        invariant Valid() && round == old(round) && old(log) <= log
        invariant forall from :: 0 <= from <= |old(log)| ==> Own(log[from..]) == Own(old(log)[from..])
      {
        ghost var was := log;
        if {
          case true =>
            var bits: set<nat>, present: bool := *, *;
            var _ := ConfirmCaps(bits, present);
          case true =>
            var slot: nat, lines: set<nat>, claimant: Option<string> := *, *, *;
            var _, _ := ClaimLines(slot, lines, claimant);
          case true =>
            var l: Lease := *;
            ReleaseLease(l);
        }
        forall from | 0 <= from <= |was|
          ensures Own(log[from..]) == Own(was[from..])
        {
          OwnOfLonger(was, from, log[|was|]);
        }
        n := n - 1;
      }
    }

    /** One polling round, with any interference at every lock boundary: it polls each slot once,
        in order, and ends settled. */
    method Tick() returns (changed: set<nat>)
      requires Valid() && round.Idle?
      modifies this
      ensures Valid() && round.Idle? && old(log) <= log && Settled(State())
      ensures var own := Own(log[|old(log)|..]);
              && |own| == |wires| + 2 && own[0] == Event.StartRound && own[|wires| + 1] == Event.EndRound
              && forall k :: 1 <= k <= |wires| ==> own[k].Polled?
      ensures forall k :: k in changed ==> k < |wires|
    {
      hide Inv, Own, Apply, Recompute, Settled;
      ghost var start := |log|;
      changed := {};
      OwnOfLonger(log, start, Event.StartRound);
      assert log[start..] == [];
      StartRound();
      var i := 0;
      while i < |slots|
        invariant Valid() && i <= |slots| && old(log) <= log
        invariant round == Polling(i, changed != {})
        invariant forall k :: k in changed ==> k < i
        invariant OwnSoFar(Own(log[start..]), i)
      {
        var probe, read, raw := BusCalls(slots[i].wire.addr);
        Others();
        OwnOfLonger(log, start, Polled(probe, read, raw));
        OwnPolled(Own(log[start..]), i, Polled(probe, read, raw));
        var entryChanged := PollSlot(probe, read, raw);
        if entryChanged {
          changed := changed + {i};
        }
        i := i + 1;
        Others();
      }
      OwnOfLonger(log, start, Event.EndRound);
      EndRound();
      EndsSettled(wires, log, State());
    }
  }

  lemma {:induction false} EndsSettled(wires: seq<Wiring>, log: seq<Event>, c: Core)
    requires c == Run(wires, log, |log|) && c.round.Idle?
    ensures Settled(c)
  {
    hide Next;
    RunKeepsInv(wires, log, |log|);
  }

  /** What the I2C probe and read of one slot may answer. */
  method BusCalls(addr: nat) returns (probe: Err, read: Err, raw: seq<bv8>)
    ensures probe != Ok ==> read == Err.State
  {
    probe, read, raw := *, *, *;
    if probe != Ok {
      read := Err.State;
    }
  }

  method ApplyTo(was: Slot, probe: Err, read: Err, raw: seq<bv8>) returns (s: Slot, changed: bool)
    ensures Applied(s, changed) == Apply(was, probe, read, raw)
  {
    hide Hash, Accept, MakeGeneric, ClearEntry;
    s := was;
    if probe != Ok {
      s := s.(seen := false, readErrors := 0);
      if s.misses < MISS_LIMIT {
        s := s.(misses := s.misses + 1);
      }
      if s.misses < MISS_LIMIT || s.e.state == Absent {
        return s, false;
      }
      return ClearEntry(s.(accepted := false)), true;
    }
    s := s.(misses := 0);
    if read != Ok {
      s := s.(seen := false);
      if s.readErrors < READ_LIMIT {
        s := s.(readErrors := s.readErrors + 1);
      }
      if s.e.state != Absent || s.readErrors < READ_LIMIT {
        return s, false;
      }
      return MakeGeneric(s, Truncated), true;
    }
    s := s.(readErrors := 0);
    var h := Digest(Hash(raw));
    var stable := s.seen && h == s.seenHash;
    s := s.(seen := true, seenHash := h);
    if !stable || (s.accepted && h == s.acceptedHash) {
      return s, false;
    }
    return Accept(s.(accepted := true, acceptedHash := h), raw), true;
  }
}
