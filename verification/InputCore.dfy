/** Debounce, long press, repeat and the OK+BACK chord (components/stark_input/input_core.c). */
module InputCore {
  import opened Stark

  const KEYS := 6
  const OK := 4
  const BACK := 5
  const REPEAT_MIN := 40
  const MAX_ACTIONS := 2 * KEYS + 1

  datatype Kind = Press | Release | Repeat | Long | Short | Chord

  datatype Action = Action(key: nat, kind: Kind, again: nat)

  datatype Timing = Timing(debounce: uint16, longPress: uint16, repeatDelay: uint16, repeatInterval: uint16)

  predicate TimingValid(t: Timing) {
    t.repeatInterval >= REPEAT_MIN && t.repeatDelay >= t.debounce && t.longPress > t.debounce
  }

  datatype KeyState = KeyState(raw: bool, pressed: bool, rawSince: uint32, pressedAt: uint32, nextRepeat: uint32,
                               repeats: byte, longSent: bool)

  const Released := KeyState(false, false, 0, 0, 0, 0, false)

  predicate Repeats(k: nat) {
    k < 4
  }

  predicate InChord(k: nat) {
    k == OK || k == BACK
  }

  // ---- One key, one sample ---------------------------------------------------

  datatype Stepped = Stepped(st: KeyState, acts: seq<Action>)

  function Longed(k: nat, st: KeyState): Stepped {
    Stepped(st.(longSent := true), [Action(k, Long, 0)])
  }

  function Repeated(k: nat, st: KeyState, held: uint32, interval: uint16): Stepped {
    var n := if st.repeats < 0xFF then st.repeats + 1 else st.repeats;
    var next := Add32(st.nextRepeat, interval);
    Stepped(st.(repeats := n, nextRepeat := if next <= held then Add32(held, interval) else next),
            [Action(k, Repeat, n)])
  }

  function Then(a: Stepped, b: Stepped): Stepped {
    Stepped(b.st, a.acts + b.acts)
  }

  function LongDue(st: KeyState, held: uint32, t: Timing, quiet: bool): bool {
    !quiet && !st.longSent && held >= t.longPress
  }

  /** A debounced release. */
  function ReleaseStep(k: nat, st: KeyState, held: uint32, t: Timing, quiet: bool): (r: Stepped)
    ensures |r.acts| <= 2
  {
    if LongDue(st, held, t, quiet) then
      Stepped(st.(longSent := true, pressed := false), [Action(k, Long, 0), Action(k, Release, 0)])
    else if !quiet && !st.longSent then Stepped(st.(pressed := false), [Action(k, Release, 0), Action(k, Short, 0)])
    else Stepped(st.(pressed := false), [Action(k, Release, 0)])
  }

  /** Still held; a release not yet debounced counts as held. */
  function HoldStep(k: nat, st: KeyState, held: uint32, t: Timing, quiet: bool): (r: Stepped)
    ensures |r.acts| <= 2
  {
    var longDue := LongDue(st, held, t, quiet);
    if !(Repeats(k) && held >= st.nextRepeat) then if longDue then Longed(k, st) else Stepped(st, [])
    else if !longDue then Repeated(k, st, held, t.repeatInterval)
    else if st.nextRepeat < t.longPress then
      var a := Repeated(k, st, held, t.repeatInterval);
      Then(a, Longed(k, a.st))
    else
      var a := Longed(k, st);
      Then(a, Repeated(k, a.st, held, t.repeatInterval))
  }

  /** quiet: a chord is latched and k is one of its keys. */
  function KeyStep(k: nat, was: KeyState, raw: bool, now: uint32, t: Timing, quiet: bool): (r: Stepped)
    ensures |r.acts| <= 2
  {
    var st := if raw != was.raw then was.(raw := raw, rawSince := now) else was;
    var stable := Sub32(now, st.rawSince) >= t.debounce;
    var held := Sub32(now, st.pressedAt);
    if !st.pressed then
      if raw && stable then
        Stepped(st.(pressed := true, pressedAt := now, nextRepeat := t.repeatDelay, repeats := 0, longSent := false),
                [Action(k, Press, 0)])
      else Stepped(st, [])
    else if !raw && stable then ReleaseStep(k, st, held, t, quiet)
    else HoldStep(k, st, held, t, quiet)
  }

  // ---- What a trace of actions may look like ---------------------------------

  /** One emitted action, or the end of an update. */
  datatype Mark = Did(a: Action) | Done

  /** A key's block of actions under way. */
  datatype Block = Block(pressed: bool, longSeen: bool, repeats: nat)

  /** owed: the key whose RELEASE must be followed by SHORT at once. */
  datatype Watch = Watch(blocks: seq<Block>, chord: bool, owed: Option<nat>)

  predicate Silenced(w: Watch, k: nat) {
    w.chord && InChord(k)
  }

  /** Either key of the chord is down. */
  predicate Held(w: Watch)
    requires |w.blocks| == KEYS
  {
    w.blocks[OK].pressed || w.blocks[BACK].pressed
  }

  /** The rules: PRESS opens a block of its key; REPEATs, numbered from 1 and saturating, and at
      most one LONG lie inside; RELEASE closes it, followed at once by SHORT exactly if there
      was no LONG and the key is not silenced by a chord. A CHORD needs both its keys down and
      silences them, LONG included, until an update ends with both up. */
  predicate Allowed(w: Watch, m: Mark)
    requires |w.blocks| == KEYS
  {
    match m
    case Done => w.owed == None
    case Did(a) =>
      if a.kind == Short then w.owed == Some(a.key)
      else
        && w.owed == None && a.key < KEYS
        && match a.kind
           case Press => !w.blocks[a.key].pressed
           case Repeat => w.blocks[a.key].pressed && Repeats(a.key) && a.again == Min(w.blocks[a.key].repeats + 1, 0xFF)
           case Long => w.blocks[a.key].pressed && !w.blocks[a.key].longSeen && !Silenced(w, a.key)
           case Release => w.blocks[a.key].pressed
           case Chord => a.key == OK && !w.chord && w.blocks[OK].pressed && w.blocks[BACK].pressed
           case Short => false
  }

  function After(w: Watch, m: Mark): (r: Watch)
    requires |w.blocks| == KEYS
    ensures |r.blocks| == KEYS
  {
    match m
    case Done => w.(chord := w.chord && Held(w))
    case Did(a) =>
      if a.key >= KEYS then w
      else
        var b := w.blocks[a.key];
        match a.kind
        case Press => w.(blocks := w.blocks[a.key := Block(true, false, 0)])
        case Repeat => w.(blocks := w.blocks[a.key := b.(repeats := b.repeats + 1)])
        case Long => w.(blocks := w.blocks[a.key := b.(longSeen := true)])
        case Release =>
          Watch(w.blocks[a.key := b.(pressed := false)], w.chord,
                if b.longSeen || Silenced(w, a.key) then None else Some(a.key))
        case Short => w.(owed := None)
        case Chord => w.(chord := true)
  }

  const NoBlock := Block(false, false, 0)

  const Idle := Watch([NoBlock, NoBlock, NoBlock, NoBlock, NoBlock, NoBlock], false, None)

  /** Where the trace leads. */
  function Reached(trace: seq<Mark>): (w: Watch)
    ensures |w.blocks| == KEYS
  {
    if trace == [] then Idle else After(Reached(trace[..|trace| - 1]), trace[|trace| - 1])
  }

  predicate Obeys(trace: seq<Mark>) {
    trace == [] || (Obeys(trace[..|trace| - 1]) && Allowed(Reached(trace[..|trace| - 1]), trace[|trace| - 1]))
  }

  lemma {:induction false} OneMore(trace: seq<Mark>, m: Mark)
    ensures Reached(trace + [m]) == After(Reached(trace), m)
    ensures Obeys(trace + [m]) <==> Obeys(trace) && Allowed(Reached(trace), m)
  {
    assert (trace + [m])[..|trace|] == trace;
  }

  function Marks(acts: seq<Action>): (ms: seq<Mark>)
    ensures |ms| == |acts|
  {
    if acts == [] then [] else Marks(acts[..|acts| - 1]) + [Did(acts[|acts| - 1])]
  }

  lemma {:induction false} ObeysPrefix(trace: seq<Mark>, n: nat)
    requires Obeys(trace) && n <= |trace|
    ensures Obeys(trace[..n])
    decreases |trace|
  {
    if n < |trace| {
      ObeysPrefix(trace[..|trace| - 1], n);
      assert trace[..|trace| - 1][..n] == trace[..n];
    } else {
      assert trace[..n] == trace;
    }
  }

  /** The mark at position i was allowed where it came, and took the trace on. */
  lemma {:induction false} MarkAt(trace: seq<Mark>, i: nat)
    requires Obeys(trace) && i < |trace|
    ensures Allowed(Reached(trace[..i]), trace[i])
    ensures Reached(trace[..i + 1]) == After(Reached(trace[..i]), trace[i])
  {
    ObeysPrefix(trace, i + 1);
    assert trace[..i + 1] == trace[..i] + [trace[i]];
    OneMore(trace[..i], trace[i]);
  }

  /** A RELEASE is followed by SHORT exactly if its block had no LONG and no chord silences the
      key. */
  lemma {:induction false} ShortExactly(trace: seq<Mark>, i: nat)
    requires Obeys(trace) && i + 1 < |trace| && trace[i].Did? && trace[i].a.kind == Release
    ensures var w, k := Reached(trace[..i]), trace[i].a.key;
            && k < KEYS && w.blocks[k].pressed
            && ((trace[i + 1].Did? && trace[i + 1].a.kind == Short && trace[i + 1].a.key == k) <==>
                !w.blocks[k].longSeen && !Silenced(w, k))
  {
    MarkAt(trace, i);
    MarkAt(trace, i + 1);
  }

  /** Between two LONGs of a key it was pressed anew. */
  lemma {:induction false} LongOncePerPress(trace: seq<Mark>, i: nat, j: nat, k: nat)
    requires Obeys(trace) && i < j < |trace| && k < KEYS
    requires IsLong(trace[i], k) && IsLong(trace[j], k)
    ensures exists m :: i < m < j && IsPress(trace[m], k)
  {
    MarkAt(trace, i);
    MarkAt(trace, j);
    LongSeenLasts(trace, i + 1, j, k);
  }

  predicate IsLong(m: Mark, k: nat) {
    m.Did? && m.a.kind == Long && m.a.key == k
  }

  predicate IsPress(m: Mark, k: nat) {
    m.Did? && m.a.kind == Press && m.a.key == k
  }

  lemma {:induction false} LongSeenLasts(trace: seq<Mark>, i: nat, j: nat, k: nat)
    requires Obeys(trace) && i <= j <= |trace| && k < KEYS && Reached(trace[..i]).blocks[k].longSeen
    ensures Reached(trace[..j]).blocks[k].longSeen || exists m :: i <= m < j && IsPress(trace[m], k)
    decreases j
  {
    hide Reached, Obeys, After;
    if i < j {
      LongSeenLasts(trace, i, j - 1, k);
      MarkAt(trace, j - 1);
      if Reached(trace[..j - 1]).blocks[k].longSeen {
        LongSeenStep(Reached(trace[..j - 1]), trace[j - 1], k);
      }
    }
  }

  lemma LongSeenStep(w: Watch, m: Mark, k: nat)
    requires |w.blocks| == KEYS && k < KEYS && w.blocks[k].longSeen
    ensures After(w, m).blocks[k].longSeen || IsPress(m, k)
  {
  }

  /** From a CHORD on, and for as long as every update since ended with OK or BACK down, neither
      of them emits SHORT or LONG. */
  lemma {:induction false} ChordSilences(trace: seq<Mark>, i: nat, j: nat)
    requires Obeys(trace) && i < j < |trace| && trace[i].Did? && trace[i].a.kind == Chord
    requires forall m :: i < m < j && trace[m] == Done ==> Held(Reached(trace[..m]))
    ensures trace[j].Did? && InChord(trace[j].a.key) ==> trace[j].a.kind != Short && trace[j].a.kind != Long
  {
    MarkAt(trace, i);
    StaysLatched(trace, i + 1, j);
    MarkAt(trace, j);
  }

  lemma {:induction false} StaysLatched(trace: seq<Mark>, i: nat, j: nat)
    requires Obeys(trace) && i <= j <= |trace| && Reached(trace[..i]).chord && Reached(trace[..i]).owed == None
    requires forall m :: i <= m < j && trace[m] == Done ==> Held(Reached(trace[..m]))
    ensures Latched(Reached(trace[..j]))
    decreases j
  {
    hide Reached, Obeys, After, Allowed, Held;
    if i < j {
      StaysLatched(trace, i, j - 1);
      MarkAt(trace, j - 1);
      LatchedStep(Reached(trace[..j - 1]), trace[j - 1]);
    }
  }

  predicate Latched(w: Watch) {
    w.chord && (w.owed.Some? ==> !InChord(w.owed.value))
  }

  lemma LatchedStep(w: Watch, m: Mark)
    requires |w.blocks| == KEYS && Latched(w) && Allowed(w, m) && (m == Done ==> Held(w))
    ensures Latched(After(w, m))
  {
  }

  // ---- The state machine keeps the rules -------------------------------------

  predicate Linked(b: Block, st: KeyState) {
    && b.pressed == st.pressed
    && (st.pressed ==> b.longSeen == st.longSent && st.repeats == Min(b.repeats, 0xFF))
  }

  /** The actions of one key's step are allowed, and leave its block as the key says. */
  lemma {:induction false} KeyStepObeys(trace: seq<Mark>, k: nat, was: KeyState, raw: bool, now: uint32, t: Timing,
                                        quiet: bool)
    requires Obeys(trace) && k < KEYS && Reached(trace).owed == None
    requires Linked(Reached(trace).blocks[k], was) && quiet == Silenced(Reached(trace), k)
    ensures var r, w := KeyStep(k, was, raw, now, t, quiet), Reached(trace);
            var after := Reached(trace + Marks(r.acts));
            && Obeys(trace + Marks(r.acts)) && after.owed == None && after.chord == w.chord
            && after.blocks == w.blocks[k := after.blocks[k]] && Linked(after.blocks[k], r.st)
  {
    hide KeyStep, Linked, Allowed, After, Silenced, Reached, Obeys, Marks;
    var acts := KeyStep(k, was, raw, now, t, quiet).acts;
    KeyStepAllowed(Reached(trace), k, was, raw, now, t, quiet);
    NoMarks();
    if |acts| == 0 {
      assert trace + Marks(acts) == trace;
    } else if |acts| == 1 {
      OneAction(trace, acts[0]);
      assert acts == [acts[0]];
    } else {
      TwoActions(trace, acts[0], acts[1]);
      assert acts == [acts[0], acts[1]];
    }
  }

  lemma NoMarks()
    ensures Marks([]) == []
  {
  }

  /** The watch after up to two actions. */
  function AfterTwo(w: Watch, acts: seq<Action>): (r: Watch)
    requires |w.blocks| == KEYS && |acts| <= 2
    ensures |r.blocks| == KEYS
  {
    if |acts| == 0 then w
    else if |acts| == 1 then After(w, Did(acts[0]))
    else After(After(w, Did(acts[0])), Did(acts[1]))
  }

  /** The step is allowed from w, where its key is at block k, and says what the block becomes. */
  ghost predicate Fine(w: Watch, k: nat, r: Stepped) {
    && |w.blocks| == KEYS && k < KEYS && |r.acts| <= 2
    && (|r.acts| > 0 ==> Allowed(w, Did(r.acts[0])))
    && (|r.acts| > 1 ==> Allowed(After(w, Did(r.acts[0])), Did(r.acts[1])))
    && var after := AfterTwo(w, r.acts);
       && after.owed == None && after.chord == w.chord
       && after.blocks == w.blocks[k := after.blocks[k]] && Linked(after.blocks[k], r.st)
  }

  lemma {:induction false} ReleaseAllowed(w: Watch, k: nat, st: KeyState, held: uint32, t: Timing, quiet: bool)
    requires |w.blocks| == KEYS && k < KEYS && w.owed == None && Linked(w.blocks[k], st) && quiet == Silenced(w, k)
    requires st.pressed
    ensures Fine(w, k, ReleaseStep(k, st, held, t, quiet))
  {
    var b := w.blocks[k];
    var r := ReleaseStep(k, st, held, t, quiet);
    assert AfterTwo(w, r.acts).blocks[k] == b.(pressed := false, longSeen := b.longSeen || LongDue(st, held, t, quiet));
  }

  lemma {:induction false} HoldAllowed(w: Watch, k: nat, st: KeyState, held: uint32, t: Timing, quiet: bool)
    requires |w.blocks| == KEYS && k < KEYS && w.owed == None && Linked(w.blocks[k], st) && quiet == Silenced(w, k)
    requires st.pressed
    ensures Fine(w, k, HoldStep(k, st, held, t, quiet))
  {
    hide Add32;
    var r := HoldStep(k, st, held, t, quiet);
    if |r.acts| == 2 {
      assert r.acts == [r.acts[0]] + [r.acts[1]];
    }
  }

  lemma {:induction false} KeyStepAllowed(w: Watch, k: nat, was: KeyState, raw: bool, now: uint32, t: Timing,
                                          quiet: bool)
    requires |w.blocks| == KEYS && k < KEYS && w.owed == None && Linked(w.blocks[k], was) && quiet == Silenced(w, k)
    ensures Fine(w, k, KeyStep(k, was, raw, now, t, quiet))
  {
    hide Sub32, ReleaseStep, HoldStep;
    var st := if raw != was.raw then was.(raw := raw, rawSince := now) else was;
    if st.pressed {
      ReleaseAllowed(w, k, st, Sub32(now, st.pressedAt), t, quiet);
      HoldAllowed(w, k, st, Sub32(now, st.pressedAt), t, quiet);
    }
  }

  lemma {:induction false} OneAction(trace: seq<Mark>, a: Action)
    ensures Marks([a]) == [Did(a)] && Reached(trace + Marks([a])) == After(Reached(trace), Did(a))
    ensures Obeys(trace + Marks([a])) <==> Obeys(trace) && Allowed(Reached(trace), Did(a))
  {
    assert Marks([a]) == [] + [Did(a)];
    OneMore(trace, Did(a));
  }

  lemma {:induction false} TwoActions(trace: seq<Mark>, a: Action, b: Action)
    ensures Reached(trace + Marks([a, b])) == After(After(Reached(trace), Did(a)), Did(b))
    ensures Obeys(trace + Marks([a, b])) <==>
            Obeys(trace) && Allowed(Reached(trace), Did(a)) && Allowed(After(Reached(trace), Did(a)), Did(b))
  {
    OneAction(trace, a);
    assert [a, b][..1] == [a];
    assert Marks([a, b]) == Marks([a]) + [Did(b)];
    OneMore(trace + Marks([a]), Did(b));
    assert trace + Marks([a]) + [Did(b)] == trace + Marks([a, b]);
  }

  // ---- All keys, one sample --------------------------------------------------

  /** Bit k of the sampled levels. */
  predicate Down(bitmap: byte, k: nat)
    requires k < KEYS
  {
    bitmap / [1, 2, 4, 8, 16, 32][k] % 2 == 1
  }

  /** Key k's step in an update. */
  function StepOf(keys: seq<KeyState>, k: nat, bitmap: byte, now: uint32, t: Timing, chord: bool): (r: Stepped)
    requires |keys| == KEYS && k < KEYS
    ensures |r.acts| <= 2
  {
    KeyStep(k, keys[k], Down(bitmap, k), now, t, chord && InChord(k))
  }

  /** What an update was given: the levels, the time, the timing, and whether a chord was latched. */
  datatype Sample = Sample(bitmap: byte, now: uint32, t: Timing, chord: bool)

  /** What a sample makes of key k. */
  function SampleStep(k: nat, was: KeyState, s: Sample): (r: Stepped)
    requires k < KEYS
    ensures |r.acts| <= 2
  {
    KeyStep(k, was, Down(s.bitmap, k), s.now, s.t, s.chord && InChord(k))
  }

  /** Key k after the first n samples since the start. */
  function KeyRun(samples: seq<Sample>, k: nat, n: nat): KeyState
    requires k < KEYS && n <= |samples|
  {
    if n == 0 then Released else SampleStep(k, KeyRun(samples, k, n - 1), samples[n - 1]).st
  }

  lemma {:induction false} RunOfLonger(samples: seq<Sample>, s: Sample, k: nat, n: nat)
    requires k < KEYS && n <= |samples|
    ensures KeyRun(samples + [s], k, n) == KeyRun(samples, k, n)
    decreases n
  {
    hide SampleStep;
    if n > 0 {
      RunOfLonger(samples, s, k, n - 1);
    }
  }

  ghost predicate RunTo(samples: seq<Sample>, keys: seq<KeyState>) {
    |keys| == KEYS && forall k :: 0 <= k < KEYS ==> keys[k] == KeyRun(samples, k, |samples|)
  }

  lemma {:induction false} RunsOn(samples: seq<Sample>, was: seq<KeyState>, s: Sample, now: seq<KeyState>)
    requires RunTo(samples, was) && |now| == KEYS
    requires forall k :: 0 <= k < KEYS ==> now[k] == SampleStep(k, was[k], s).st
    ensures RunTo(samples + [s], now)
  {
    hide SampleStep;
    forall k | 0 <= k < KEYS
      ensures now[k] == KeyRun(samples + [s], k, |samples| + 1)
    {
      RunOfLonger(samples, s, k, |samples|);
    }
  }

  /** The actions of the first n keys, in key order. */
  function ActsOf(keys: seq<KeyState>, n: nat, bitmap: byte, now: uint32, t: Timing, chord: bool): (r: seq<Action>)
    requires |keys| == KEYS && n <= KEYS
    ensures |r| <= 2 * n
  {
    if n == 0 then [] else ActsOf(keys, n - 1, bitmap, now, t, chord) + StepOf(keys, n - 1, bitmap, now, t, chord).acts
  }

  const ChordAction := Action(OK, Chord, 0)

  lemma {:induction false} MarksJoin(a: seq<Action>, b: seq<Action>)
    ensures Marks(a + b) == Marks(a) + Marks(b)
    decreases |b|
  {
    if b == [] {
      assert a + b == a;
    } else {
      MarksJoin(a, b[..|b| - 1]);
      assert (a + b)[..|a + b| - 1] == a + b[..|b| - 1];
    }
  }

  method UpdateKey(k: nat, was: KeyState, raw: bool, now: uint32, t: Timing, quiet: bool)
      returns (st: KeyState, acts: seq<Action>)
    ensures Stepped(st, acts) == KeyStep(k, was, raw, now, t, quiet)
  {
    hide Sub32, Add32;
    st, acts := was, [];
    if raw != st.raw {
      st := st.(raw := raw, rawSince := now);
    }
    var stable := Sub32(now, st.rawSince) >= t.debounce;
    if !st.pressed {
      if raw && stable {
        st := st.(pressed := true, pressedAt := now, nextRepeat := t.repeatDelay, repeats := 0, longSent := false);
        acts := [Action(k, Press, 0)];
      }
      return;
    }
    var held := Sub32(now, st.pressedAt);
    if !raw && stable {
      st, acts := Let(k, st, held, t, quiet);
    } else {
      st, acts := Hold(k, st, held, t, quiet);
    }
  }

  method Let(k: nat, was: KeyState, held: uint32, t: Timing, quiet: bool) returns (st: KeyState, acts: seq<Action>)
    ensures Stepped(st, acts) == ReleaseStep(k, was, held, t, quiet)
  {
    st, acts := was, [];
    if !quiet && !st.longSent && held >= t.longPress {
      st := st.(longSent := true);
      acts := acts + [Action(k, Long, 0)];
    }
    acts := acts + [Action(k, Release, 0)];
    if !quiet && !st.longSent {
      acts := acts + [Action(k, Short, 0)];
    }
    st := st.(pressed := false);
  }

  method Hold(k: nat, was: KeyState, held: uint32, t: Timing, quiet: bool) returns (st: KeyState, acts: seq<Action>)
    ensures Stepped(st, acts) == HoldStep(k, was, held, t, quiet)
  {
    st, acts := was, [];
    var longDue := !quiet && !st.longSent && held >= t.longPress;
    var repeatDue := Repeats(k) && held >= st.nextRepeat;
    if longDue && repeatDue && st.nextRepeat < t.longPress {
      var a, b := EmitRepeat(k, st, held, t.repeatInterval);
      st := a.(longSent := true);
      acts := b + [Action(k, Long, 0)];
      return;
    }
    if longDue {
      st := st.(longSent := true);
      acts := [Action(k, Long, 0)];
    }
    if repeatDue {
      var a, b := EmitRepeat(k, st, held, t.repeatInterval);
      st, acts := a, acts + b;
    }
  }

  method EmitRepeat(k: nat, was: KeyState, held: uint32, interval: uint16) returns (st: KeyState, acts: seq<Action>)
    ensures Stepped(st, acts) == Repeated(k, was, held, interval)
  {
    st := was;
    if st.repeats < 0xFF {
      st := st.(repeats := st.repeats + 1);
    }
    acts := [Action(k, Repeat, st.repeats)];
    st := st.(nextRepeat := Add32(st.nextRepeat, interval));
    if st.nextRepeat <= held {
      st := st.(nextRepeat := Add32(held, interval));
    }
  }

  /** The trace obeys the rules, and every key and the chord are where it leads. */
  ghost predicate Tracks(trace: seq<Mark>, keys: seq<KeyState>, chord: bool) {
    && |keys| == KEYS && Obeys(trace) && Reached(trace).owed == None && Reached(trace).chord == chord
    && (forall k :: 0 <= k < KEYS ==> Linked(Reached(trace).blocks[k], keys[k]))
  }

  lemma {:induction false} TracksKey(trace: seq<Mark>, keys: seq<KeyState>, chord: bool, k: nat, bitmap: byte,
                                     now: uint32, t: Timing)
    requires Tracks(trace, keys, chord) && k < KEYS
    ensures var r := StepOf(keys, k, bitmap, now, t, chord); Tracks(trace + Marks(r.acts), keys[k := r.st], chord)
  {
    hide Obeys, Reached, Marks, KeyStep, Linked, Down;
    KeyStepObeys(trace, k, keys[k], Down(bitmap, k), now, t, chord && InChord(k));
  }

  /** The end of an update: a chord begins with both its keys down and ends with both up. */
  lemma {:induction false} TracksChord(trace: seq<Mark>, keys: seq<KeyState>, chord: bool)
    requires Tracks(trace, keys, chord)
    ensures var ok, back := keys[OK].pressed, keys[BACK].pressed;
            var acts := if !chord && ok && back then [ChordAction] else [];
            Tracks(trace + Marks(acts) + [Done], keys, (ok && back) || (chord && (ok || back)))
  {
    hide After, Allowed, Obeys, Reached, Marks, Linked;
    var w := Reached(trace);
    ChordAllowed(w, keys);
    if !chord && keys[OK].pressed && keys[BACK].pressed {
      OneAction(trace, ChordAction);
      OneMore(trace + Marks([ChordAction]), Done);
    } else {
      NoMarks();
      assert trace + Marks([]) == trace;
      OneMore(trace, Done);
    }
  }

  lemma {:induction false} ChordAllowed(w: Watch, keys: seq<KeyState>)
    requires |w.blocks| == KEYS == |keys| && w.owed == None
    requires forall k :: 0 <= k < KEYS ==> Linked(w.blocks[k], keys[k])
    ensures var ok, back := keys[OK].pressed, keys[BACK].pressed;
            var begins := !w.chord && ok && back;
            var u := if begins then After(w, Did(ChordAction)) else w;
            && (begins ==> Allowed(w, Did(ChordAction))) && Allowed(u, Done)
            && After(u, Done) == w.(chord := (ok && back) || (w.chord && (ok || back)))
  {
    assert Linked(w.blocks[OK], keys[OK]) && Linked(w.blocks[BACK], keys[BACK]);
  }

  class Keys {
    var keys: seq<KeyState>
    var t: Timing
    var chord: bool
    ghost var trace: seq<Mark> // everything ever emitted, with or without room in the caller's array
    ghost var samples: seq<Sample>

    /** Between updates: the trace obeys the rules, every key is where its block is, and a chord
        is latched if both its keys are down and only while one of them is. */
    ghost predicate Valid()
      reads this
    {
      && |keys| == KEYS && TimingValid(t) && Tracks(trace, keys, chord) && RunTo(samples, keys)
      && (chord ==> keys[OK].pressed || keys[BACK].pressed)
      && (keys[OK].pressed && keys[BACK].pressed ==> chord)
    }

    constructor (t: Timing)
      requires TimingValid(t)
      ensures Valid() && trace == [] && samples == [] && this.t == t
    {
      keys := [Released, Released, Released, Released, Released, Released];
      this.t, chord, trace, samples := t, false, [], [];
    }

    /** A held key keeps its press; a bad timing changes nothing. */
    method SetTiming(t: Timing) returns (err: Err)
      requires Valid()
      modifies this`t
      ensures Valid() && err == (if TimingValid(t) then Ok else InvalidArg)
      ensures this.t == if err == Ok then t else old(this.t)
    {
      if !TimingValid(t) {
        return InvalidArg;
      }
      this.t := t;
      return Ok;
    }

    /** One sample: the actions in key order, a CHORD last; the first `most` of them go out. */
    method Update(bitmap: byte, now: uint32, most: nat) returns (out: seq<Action>, ghost all: seq<Action>)
      requires Valid()
      modifies this`keys, this`chord, this`trace, this`samples
      ensures Valid() && trace == old(trace) + Marks(all) + [Done] && |all| <= MAX_ACTIONS
      ensures samples == old(samples) + [Sample(bitmap, now, t, old(chord))]
      ensures out == all[..Min(most, |all|)]
      ensures forall k :: 0 <= k < KEYS ==> keys[k] == StepOf(old(keys), k, bitmap, now, t, old(chord)).st
      ensures all == ActsOf(old(keys), KEYS, bitmap, now, t, old(chord))
                     + if !old(chord) && keys[OK].pressed && keys[BACK].pressed then [ChordAction] else []
      ensures chord <==>
                (keys[OK].pressed && keys[BACK].pressed) || (old(chord) && (keys[OK].pressed || keys[BACK].pressed))
    {
      hide Tracks, Marks, KeyStep, Down, RunTo, StepOf, ActsOf, SampleStep;
      ghost var were := keys;
      ghost var sample := Sample(bitmap, now, t, chord);
      out, all := EachKey(bitmap, now, most);
      StepsAre(were, sample);
      RunsOn(samples, were, sample, keys);
      samples := samples + [sample];
      var ok, back := keys[OK].pressed, keys[BACK].pressed;
      TracksChord(trace, keys, chord);
      ghost var acts := if !chord && ok && back then [ChordAction] else [];
      ghost var before := trace;
      NoMarks();
      if !chord && ok && back {
        chord := true;
        out, all, trace := Took(out, all, [ChordAction], most, old(trace), trace);
      } else if chord && !ok && !back {
        chord := false;
      }
      assert trace == before + Marks(acts);
      trace := trace + [Done];
    }

    /** Every key takes the sample, in order. */
    method EachKey(bitmap: byte, now: uint32, most: nat) returns (out: seq<Action>, ghost all: seq<Action>)
      requires |keys| == KEYS && Tracks(trace, keys, chord)
      modifies this`keys, this`trace
      ensures |keys| == KEYS && Tracks(trace, keys, chord) && |all| <= 2 * KEYS
      ensures forall k :: 0 <= k < KEYS ==> keys[k] == StepOf(old(keys), k, bitmap, now, t, chord).st
      ensures all == ActsOf(old(keys), KEYS, bitmap, now, t, chord)
      ensures out == all[..Min(most, |all|)] && trace == old(trace) + Marks(all)
    {
      hide Tracks, Marks, KeyStep, Down, StepOf;
      out, all := [], [];
      ghost var was := trace;
      NoMarks();
      var k := 0;
      while k < KEYS
        invariant k <= KEYS == |keys| && all == ActsOf(old(keys), k, bitmap, now, t, chord)
        invariant out == all[..Min(most, |all|)] && trace == was + Marks(all)
        invariant forall j :: 0 <= j < KEYS ==>
                    keys[j] == if j < k then StepOf(old(keys), j, bitmap, now, t, chord).st else old(keys)[j]
        invariant Tracks(trace, keys, chord)
      {
        TracksKey(trace, keys, chord, k, bitmap, now, t);
        SameKey(old(keys), keys, k, bitmap, now, t, chord);
        var st, acts := UpdateKey(k, keys[k], Down(bitmap, k), now, t, chord && (k == OK || k == BACK));
        keys := keys[k := st];
        out, all, trace := Took(out, all, acts, most, was, trace);
        k := k + 1;
      }
    }
  }

  lemma SameKey(was: seq<KeyState>, keys: seq<KeyState>, k: nat, bitmap: byte, now: uint32, t: Timing, chord: bool)
    requires |was| == |keys| == KEYS && k < KEYS && was[k] == keys[k]
    ensures var r := KeyStep(k, keys[k], Down(bitmap, k), now, t, chord && (k == OK || k == BACK));
            r == StepOf(keys, k, bitmap, now, t, chord) == StepOf(was, k, bitmap, now, t, chord)
  {
  }

  lemma StepsAre(keys: seq<KeyState>, s: Sample)
    requires |keys| == KEYS
    ensures forall k :: 0 <= k < KEYS ==> SampleStep(k, keys[k], s) == StepOf(keys, k, s.bitmap, s.now, s.t, s.chord)
  {
  }

  /** More actions go to the caller's array as far as they fit, and to the trace. */
  method Took(out: seq<Action>, ghost all: seq<Action>, acts: seq<Action>, most: nat, ghost was: seq<Mark>,
              ghost trace: seq<Mark>)
      returns (sunk: seq<Action>, ghost every: seq<Action>, ghost next: seq<Mark>)
    requires out == all[..Min(most, |all|)] && trace == was + Marks(all)
    ensures every == all + acts && next == trace + Marks(acts) == was + Marks(every)
    ensures sunk == every[..Min(most, |every|)]
  {
    every := all + acts;
    MarksJoin(all, acts);
    next := trace + Marks(acts);
    sunk := Sunk(out, acts, most);
    if |all| <= most {
      assert out == all;
    }
  }

  /** The caller's array after more actions: those that do not fit are discarded. */
  method Sunk(was: seq<Action>, acts: seq<Action>, most: nat) returns (out: seq<Action>)
    ensures |was| <= most ==> out == (was + acts)[..Min(most, |was| + |acts|)]
    ensures |was| >= most ==> out == was
  {
    out := was;
    var i := 0;
    while i < |acts|
      invariant |was| >= most ==> out == was
      invariant i <= |acts| && (|was| <= most ==> out == (was + acts[..i])[..Min(most, |was| + i)])
    {
      if |out| < most {
        out := out + [acts[i]];
      }
      i := i + 1;
    }
    assert acts[..i] == acts;
  }
}
