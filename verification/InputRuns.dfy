/** When keys press, release and repeat, told by the samples of a whole run
    (components/stark_input/input_core.c). */
module InputRuns {
  import opened Stark
  import opened InputCore

  predicate RawAt(samples: seq<Sample>, k: nat, j: nat)
    requires k < KEYS && j < |samples|
  {
    Down(samples[j].bitmap, k)
  }

  /** Where the samples equal to sample n, up to it, begin. */
  function SameFrom(samples: seq<Sample>, k: nat, n: nat): (m: nat)
    requires k < KEYS && n < |samples|
    ensures m <= n && (m > 0 ==> RawAt(samples, k, m - 1) != RawAt(samples, k, n))
    ensures forall j :: m <= j <= n ==> RawAt(samples, k, j) == RawAt(samples, k, n)
  {
    if n == 0 || RawAt(samples, k, n - 1) != RawAt(samples, k, n) then n else SameFrom(samples, k, n - 1)
  }

  /** At sample n the key has read the same for at least the debounce time. */
  predicate Stable(samples: seq<Sample>, k: nat, n: nat)
    requires k < KEYS && n < |samples|
  {
    Sub32(samples[n].now, samples[SameFrom(samples, k, n)].now) >= samples[n].t.debounce
  }

  /** The step sample n makes of key k. */
  function StepAt(samples: seq<Sample>, k: nat, n: nat): (r: Stepped)
    requires k < KEYS && n < |samples|
    ensures |r.acts| <= 2
  {
    SampleStep(k, KeyRun(samples, k, n), samples[n])
  }

  /** One of the actions is of this kind. */
  predicate Emits(r: Stepped, kind: Kind) {
    exists i :: 0 <= i < |r.acts| && r.acts[i].kind == kind
  }

  /** A sample makes a key do at most two things. */
  lemma AmongTwo(r: Stepped, kind: Kind)
    requires |r.acts| <= 2
    ensures Emits(r, kind) <==> (|r.acts| > 0 && r.acts[0].kind == kind) || (|r.acts| > 1 && r.acts[1].kind == kind)
  {
  }

  // ---- Debouncing ------------------------------------------------------------

  lemma StepRaw(k: nat, was: KeyState, raw: bool, now: uint32, t: Timing, quiet: bool)
    ensures var r := KeyStep(k, was, raw, now, t, quiet);
            && r.st.raw == raw && r.st.rawSince == (if raw != was.raw then now else was.rawSince)
            && (r.st.pressed && !was.pressed ==> raw)
  {
  }

  /** The key knows the last level and since when it has read so, once it has ever read down. */
  lemma {:induction false} KnowsSince(samples: seq<Sample>, k: nat, n: nat)
    requires k < KEYS && n < |samples|
    ensures var st := KeyRun(samples, k, n + 1);
            && st.raw == RawAt(samples, k, n)
            && ((exists j :: 0 <= j <= n && RawAt(samples, k, j)) ==>
                st.rawSince == samples[SameFrom(samples, k, n)].now)
    decreases n
  {
    hide KeyStep, Down;
    var s := samples[n];
    StepRaw(k, KeyRun(samples, k, n), Down(s.bitmap, k), s.now, s.t, s.chord && InChord(k));
    if n > 0 {
      KnowsSince(samples, k, n - 1);
    }
  }

  lemma {:induction false} PressedReadDown(samples: seq<Sample>, k: nat, n: nat)
    requires k < KEYS && n <= |samples| && KeyRun(samples, k, n).pressed
    ensures exists j :: 0 <= j < n && RawAt(samples, k, j)
    decreases n
  {
    if n > 0 {
      var s := samples[n - 1];
      StepRaw(k, KeyRun(samples, k, n - 1), Down(s.bitmap, k), s.now, s.t, s.chord && InChord(k));
      hide KeyStep, Down;
      if KeyRun(samples, k, n - 1).pressed {
        PressedReadDown(samples, k, n - 1);
      } else {
        assert RawAt(samples, k, n - 1);
      }
    }
  }

  lemma {:induction false} StepKinds(k: nat, was: KeyState, raw: bool, now: uint32, t: Timing, quiet: bool)
    ensures var r := KeyStep(k, was, raw, now, t, quiet);
            var since := if raw != was.raw then now else was.rawSince;
            var stable := Sub32(now, since) >= t.debounce;
            && (Emits(r, Press) <==> !was.pressed && raw && stable)
            && (Emits(r, Release) <==> was.pressed && !raw && stable)
            && r.st.pressed == (if Emits(r, Press) then true else if Emits(r, Release) then false else was.pressed)
  {
    hide Sub32, Add32;
    hide Emits;
    var r := KeyStep(k, was, raw, now, t, quiet);
    AmongTwo(r, Press);
    AmongTwo(r, Release);
  }

  /** A key presses exactly when it is up and has read down in every sample for at least the
      debounce time, and releases exactly when it is down and has so read up; nothing else changes
      it. */
  lemma {:induction false} DebouncedExactly(samples: seq<Sample>, k: nat, n: nat)
    requires k < KEYS && n < |samples|
    ensures var was, r := KeyRun(samples, k, n), StepAt(samples, k, n);
            && (Emits(r, Press) <==> !was.pressed && RawAt(samples, k, n) && Stable(samples, k, n))
            && (Emits(r, Release) <==> was.pressed && !RawAt(samples, k, n) && Stable(samples, k, n))
            && KeyRun(samples, k, n + 1).pressed ==
               (if Emits(r, Press) then true else if Emits(r, Release) then false else was.pressed)
  {
    hide KeyStep, Down, Emits;
    var was, s := KeyRun(samples, k, n), samples[n];
    var raw := RawAt(samples, k, n);
    StepKinds(k, was, raw, s.now, s.t, s.chord && InChord(k));
    StepRaw(k, was, raw, s.now, s.t, s.chord && InChord(k));
    KnowsSince(samples, k, n);
    if was.pressed {
      PressedReadDown(samples, k, n);
    }
    if raw || was.pressed {
      assert exists j :: 0 <= j <= n && RawAt(samples, k, j);
    }
  }

  // ---- Repeating -------------------------------------------------------------

  /** How long the key has been down at sample n, as the key counts it. */
  function HeldAt(samples: seq<Sample>, k: nat, n: nat): uint32
    requires k < KEYS && n < |samples|
  {
    Sub32(samples[n].now, KeyRun(samples, k, n).pressedAt)
  }

  /** After a repeat the next one lies later than this sample, at most an interval away, exactly as
      long as the counted time does not wrap: missed repeats are skipped, not made up for. */
  lemma NextRepeatLater(k: nat, st: KeyState, held: uint32, interval: uint16)
    requires st.nextRepeat <= held && interval > 0
    ensures var next := Repeated(k, st, held, interval).st.nextRepeat;
            && (held + interval < TWO32 ==> held < next <= held + interval && next >= st.nextRepeat + interval)
            && (next > held <==> held + interval < TWO32 || held < st.nextRepeat + interval < TWO32)
  {
  }

  lemma {:induction false} StepRepeats(k: nat, was: KeyState, raw: bool, now: uint32, t: Timing, quiet: bool)
    requires var held := Sub32(now, was.pressedAt); held + t.repeatInterval < TWO32 && t.repeatInterval > 0
    ensures var r, held := KeyStep(k, was, raw, now, t, quiet), Sub32(now, was.pressedAt);
            && (Emits(r, Press) ==> r.st.nextRepeat == t.repeatDelay && r.st.pressedAt == now && !Emits(r, Repeat))
            && (Emits(r, Repeat) ==> was.pressed && held >= was.nextRepeat && r.st.pressed
                                     && r.st.nextRepeat > held && r.st.nextRepeat >= was.nextRepeat + t.repeatInterval)
            && (!Emits(r, Press) ==> r.st.pressedAt == was.pressedAt)
            && (!Emits(r, Press) && !Emits(r, Repeat) ==> r.st.nextRepeat == was.nextRepeat)
  {
    hide Emits, Sub32, Add32;
    var r, held := KeyStep(k, was, raw, now, t, quiet), Sub32(now, was.pressedAt);
    if held >= was.nextRepeat {
      NextRepeatLater(k, was, held, t.repeatInterval);
    }
    AmongTwo(r, Press);
    AmongTwo(r, Repeat);
  }

  /** REPEATs of the press under way after n samples. */
  function Count(samples: seq<Sample>, k: nat, n: nat): nat
    requires k < KEYS && n <= |samples|
  {
    if n == 0 || Emits(StepAt(samples, k, n - 1), Press) then 0
    else Count(samples, k, n - 1) + if Emits(StepAt(samples, k, n - 1), Repeat) then 1 else 0
  }

  /** How long a key must have been down before its (c + 1)-th REPEAT is due. */
  function Due(t: Timing, c: nat): nat {
    t.repeatDelay + c * t.repeatInterval
  }

  /** The timing stays the same, and no key is counted as held for 2^32 ms. */
  predicate Steady(samples: seq<Sample>, k: nat, n: nat, t: Timing)
    requires k < KEYS && n <= |samples|
  {
    forall j :: 0 <= j < n ==> samples[j].t == t && HeldAt(samples, k, j) + t.repeatInterval < TWO32
  }

  lemma {:induction false} RepeatsSpread(samples: seq<Sample>, k: nat, n: nat, t: Timing)
    requires k < KEYS && n <= |samples| && TimingValid(t) && Steady(samples, k, n, t)
    ensures KeyRun(samples, k, n).pressed ==>
              KeyRun(samples, k, n).nextRepeat >= Due(t, Count(samples, k, n))
    decreases n
  {
    hide KeyStep, Down, Emits, Sub32, Due, Steady, Count, SampleStep;
    if n > 0 {
      hide *;
      SteadyOnce(samples, k, n, t);
      RepeatsSpread(samples, k, n - 1, t);
      LastStep(samples, k, n);
      var s, was := samples[n - 1], KeyRun(samples, k, n - 1);
      SpreadStep(k, was, Down(s.bitmap, k), s.now, t, s.chord && InChord(k), Count(samples, k, n - 1));
    }
  }

  lemma SteadyOnce(samples: seq<Sample>, k: nat, n: nat, t: Timing)
    requires k < KEYS && 0 < n <= |samples| && Steady(samples, k, n, t)
    ensures Steady(samples, k, n - 1, t) && samples[n - 1].t == t
    ensures Sub32(samples[n - 1].now, KeyRun(samples, k, n - 1).pressedAt) + t.repeatInterval < TWO32
  {
    hide KeyRun, Sub32;
    assert HeldAt(samples, k, n - 1) + t.repeatInterval < TWO32;
  }

  lemma LastStep(samples: seq<Sample>, k: nat, n: nat)
    requires k < KEYS && 0 < n <= |samples|
    ensures var s, was := samples[n - 1], KeyRun(samples, k, n - 1);
            var r := KeyStep(k, was, Down(s.bitmap, k), s.now, s.t, s.chord && InChord(k));
            && KeyRun(samples, k, n) == r.st
            && Count(samples, k, n) ==
               if Emits(r, Press) then 0 else Count(samples, k, n - 1) + if Emits(r, Repeat) then 1 else 0
  {
    hide KeyStep, Down, Emits;
  }

  lemma {:induction false} SpreadStep(k: nat, was: KeyState, raw: bool, now: uint32, t: Timing, quiet: bool, c: nat)
    requires Sub32(now, was.pressedAt) + t.repeatInterval < TWO32 && TimingValid(t)
    requires was.pressed ==> was.nextRepeat >= Due(t, c)
    ensures var r := KeyStep(k, was, raw, now, t, quiet);
            r.st.pressed ==>
              r.st.nextRepeat >= Due(t, if Emits(r, Press) then 0 else c + if Emits(r, Repeat) then 1 else 0)
  {
    StepRepeats(k, was, raw, now, t, quiet);
    StepKinds(k, was, raw, now, t, quiet);
    assert Due(t, 0) == t.repeatDelay && Due(t, c + 1) == Due(t, c) + t.repeatInterval;
    hide KeyStep, Emits, Sub32, Due;
  }

  /** The (c + 1)-th REPEAT of a press never comes before the delay and c intervals have passed,
      however the samples fall; and the one after it comes at a strictly later time, so late samples
      never make a burst. */
  lemma {:induction false} RepeatsNeverEarly(samples: seq<Sample>, k: nat, n: nat, t: Timing)
    requires k < KEYS && n < |samples| && TimingValid(t) && Steady(samples, k, n + 1, t)
    requires Emits(StepAt(samples, k, n), Repeat)
    ensures HeldAt(samples, k, n) >= Due(t, Count(samples, k, n))
    ensures KeyRun(samples, k, n + 1).nextRepeat > HeldAt(samples, k, n)
    ensures Count(samples, k, n + 1) == Count(samples, k, n) + 1
  {
    hide KeyStep, Down, Emits, Sub32, Due;
    var s, was := samples[n], KeyRun(samples, k, n);
    assert HeldAt(samples, k, n) + t.repeatInterval < TWO32;
    assert Steady(samples, k, n, t);
    RepeatsSpread(samples, k, n, t);
    StepRepeats(k, was, Down(s.bitmap, k), s.now, t, s.chord && InChord(k));
  }

  // ---- Long presses ----------------------------------------------------------

  lemma {:induction false} StepLong(k: nat, was: KeyState, raw: bool, now: uint32, t: Timing, quiet: bool)
    ensures var r := KeyStep(k, was, raw, now, t, quiet);
            && (Emits(r, Long) <==>
                was.pressed && !quiet && !was.longSent && Sub32(now, was.pressedAt) >= t.longPress)
            && (Emits(r, Press) ==> !r.st.longSent)
            && (!Emits(r, Press) ==> r.st.longSent == (was.longSent || Emits(r, Long)))
  {
    hide Emits, Sub32, Add32;
    var r := KeyStep(k, was, raw, now, t, quiet);
    AmongTwo(r, Press);
    AmongTwo(r, Long);
  }

  predicate Quiet(samples: seq<Sample>, k: nat, n: nat)
    requires n < |samples|
  {
    samples[n].chord && InChord(k)
  }

  /** At sample n the key is down, not silenced, and has been for the long-press time. */
  predicate Ripe(samples: seq<Sample>, k: nat, n: nat)
    requires k < KEYS && n < |samples|
  {
    KeyRun(samples, k, n).pressed && !Quiet(samples, k, n) && HeldAt(samples, k, n) >= samples[n].t.longPress
  }

  /** The sample after the last PRESS. */
  function PressFrom(samples: seq<Sample>, k: nat, n: nat): (m: nat)
    requires k < KEYS && n <= |samples|
    ensures m <= n
  {
    if n == 0 || Emits(StepAt(samples, k, n - 1), Press) then n else PressFrom(samples, k, n - 1)
  }

  ghost predicate RipeSince(samples: seq<Sample>, k: nat, n: nat)
    requires k < KEYS && n <= |samples|
  {
    exists m :: PressFrom(samples, k, n) <= m < n && Ripe(samples, k, m)
  }

  /** What one sample does to the key, in terms of the run. */
  lemma StepIs(samples: seq<Sample>, k: nat, n: nat)
    requires k < KEYS && n < |samples|
    ensures var s, was := samples[n], KeyRun(samples, k, n);
            && StepAt(samples, k, n) == KeyStep(k, was, Down(s.bitmap, k), s.now, s.t, Quiet(samples, k, n))
            && KeyRun(samples, k, n + 1) == StepAt(samples, k, n).st
            && HeldAt(samples, k, n) == Sub32(s.now, was.pressedAt)
  {
    hide KeyStep, Down, Sub32;
  }

  lemma {:induction false} LongKnown(samples: seq<Sample>, k: nat, n: nat)
    requires k < KEYS && n <= |samples| && KeyRun(samples, k, n).pressed
    ensures KeyRun(samples, k, n).longSent <==> RipeSince(samples, k, n)
    decreases n
  {
    hide SampleStep, StepAt, Emits, HeldAt, Sub32, Down, KeyStep, Quiet;
    if n > 0 {
      var s, was := samples[n - 1], KeyRun(samples, k, n - 1);
      StepIs(samples, k, n - 1);
      StepLong(k, was, Down(s.bitmap, k), s.now, s.t, Quiet(samples, k, n - 1));
      StepKinds(k, was, Down(s.bitmap, k), s.now, s.t, Quiet(samples, k, n - 1));
      hide KeyRun;
      if !Emits(StepAt(samples, k, n - 1), Press) {
        LongKnown(samples, k, n - 1);
        RipeGoesOn(samples, k, n - 1);
      }
    }
  }

  lemma {:induction false} RipeGoesOn(samples: seq<Sample>, k: nat, n: nat)
    requires k < KEYS && n < |samples| && !Emits(StepAt(samples, k, n), Press)
    ensures RipeSince(samples, k, n + 1) <==> RipeSince(samples, k, n) || Ripe(samples, k, n)
  {
    hide StepAt, Emits, Ripe;
    assert PressFrom(samples, k, n + 1) == PressFrom(samples, k, n);
    if RipeSince(samples, k, n) {
      var m :| PressFrom(samples, k, n) <= m < n && Ripe(samples, k, m);
      assert Ripe(samples, k, m);
    }
  }

  /** A LONG comes exactly at the first sample of a press at which the key, not silenced, has been
      down for the long-press time. */
  lemma {:induction false} LongExactly(samples: seq<Sample>, k: nat, n: nat)
    requires k < KEYS && n < |samples|
    ensures Emits(StepAt(samples, k, n), Long) <==>
              Ripe(samples, k, n) && forall m :: PressFrom(samples, k, n) <= m < n ==> !Ripe(samples, k, m)
  {
    hide SampleStep, StepAt, Emits, HeldAt, Sub32, Down, KeyStep, Quiet, KeyRun, PressFrom;
    var s, was := samples[n], KeyRun(samples, k, n);
    StepIs(samples, k, n);
    StepLong(k, was, Down(s.bitmap, k), s.now, s.t, Quiet(samples, k, n));
    if was.pressed {
      LongKnown(samples, k, n);
    }
  }

  // ---- Repeats fall due ------------------------------------------------------

  /** When the next repeat is due after one due at `due` went out at `held`. */
  function Later(due: uint32, held: uint32, interval: uint16): uint32 {
    if Add32(due, interval) <= held then Add32(held, interval) else Add32(due, interval)
  }

  lemma {:induction false} StepDue(k: nat, was: KeyState, raw: bool, now: uint32, t: Timing, quiet: bool)
    ensures var r, held := KeyStep(k, was, raw, now, t, quiet), Sub32(now, was.pressedAt);
            && (Emits(r, Repeat) <==>
                was.pressed && !Emits(r, Release) && Repeats(k) && held >= was.nextRepeat)
            && r.st.nextRepeat == if Emits(r, Press) then t.repeatDelay
                                  else if Emits(r, Repeat) then Later(was.nextRepeat, held, t.repeatInterval)
                                  else was.nextRepeat
  {
    hide Emits, Sub32, Add32;
    var r := KeyStep(k, was, raw, now, t, quiet);
    AmongTwo(r, Press);
    AmongTwo(r, Release);
    AmongTwo(r, Repeat);
  }

  /** How long the key must have been down at sample n for a REPEAT: the delay after a press, and an
      interval after each REPEAT, from when that was due or, had that passed too, from when it came. */
  function DueAt(samples: seq<Sample>, k: nat, n: nat): uint32
    requires k < KEYS && n <= |samples|
  {
    if n == 0 then 0
    else
      var r, t := StepAt(samples, k, n - 1), samples[n - 1].t;
      if Emits(r, Press) then t.repeatDelay
      else if Emits(r, Repeat) then Later(DueAt(samples, k, n - 1), HeldAt(samples, k, n - 1), t.repeatInterval)
      else DueAt(samples, k, n - 1)
  }

  /** The sample after the last PRESS or REPEAT. */
  function DueFrom(samples: seq<Sample>, k: nat, n: nat): (m: nat)
    requires k < KEYS && n <= |samples|
    ensures m <= n
  {
    if n == 0 || Emits(StepAt(samples, k, n - 1), Press) || Emits(StepAt(samples, k, n - 1), Repeat) then n
    else DueFrom(samples, k, n - 1)
  }

  lemma {:induction false} KnowsDue(samples: seq<Sample>, k: nat, n: nat)
    requires k < KEYS && n <= |samples|
    ensures KeyRun(samples, k, n).nextRepeat == DueAt(samples, k, n)
    decreases n
  {
    hide SampleStep, StepAt, Emits, HeldAt, Sub32, Down, KeyStep, Quiet, Later;
    if n > 0 {
      KnowsDue(samples, k, n - 1);
      StepIs(samples, k, n - 1);
      var s, was := samples[n - 1], KeyRun(samples, k, n - 1);
      StepDue(k, was, Down(s.bitmap, k), s.now, s.t, Quiet(samples, k, n - 1));
      hide KeyRun;
    }
  }

  lemma {:induction false} RepeatWhenDue(samples: seq<Sample>, k: nat, n: nat)
    requires k < KEYS && n < |samples|
    ensures var r := StepAt(samples, k, n);
            Emits(r, Repeat) <==>
              KeyRun(samples, k, n).pressed && !Emits(r, Release) && Repeats(k)
              && HeldAt(samples, k, n) >= DueAt(samples, k, n)
  {
    hide SampleStep, StepAt, Emits, HeldAt, Sub32, Down, KeyStep, Quiet, Later, KeyRun, DueAt;
    KnowsDue(samples, k, n);
    StepIs(samples, k, n);
    var s, was := samples[n], KeyRun(samples, k, n);
    StepDue(k, was, Down(s.bitmap, k), s.now, s.t, Quiet(samples, k, n));
  }

  lemma {:induction false} NotYetDue(samples: seq<Sample>, k: nat, n: nat)
    requires k < KEYS && n <= |samples| && KeyRun(samples, k, n).pressed && Repeats(k)
    ensures forall m :: DueFrom(samples, k, n) <= m < n ==> HeldAt(samples, k, m) < DueAt(samples, k, n)
    decreases n
  {
    hide SampleStep, StepAt, Emits, HeldAt, Sub32, Down, KeyStep, Quiet, Later, KeyRun;
    if DueFrom(samples, k, n) < n {
      RepeatWhenDue(samples, k, n - 1);
      StepIs(samples, k, n - 1);
      var s, was := samples[n - 1], KeyRun(samples, k, n - 1);
      StepKinds(k, was, Down(s.bitmap, k), s.now, s.t, Quiet(samples, k, n - 1));
      NotYetDue(samples, k, n - 1);
    }
  }

  /** A direction key repeats exactly at the first sample, among those at which it stays down, at or
      after the time due. */
  lemma {:induction false} RepeatsExactly(samples: seq<Sample>, k: nat, n: nat)
    requires k < KEYS && n < |samples|
    ensures var r := StepAt(samples, k, n);
            Emits(r, Repeat) <==>
              && KeyRun(samples, k, n).pressed && !Emits(r, Release) && Repeats(k)
              && HeldAt(samples, k, n) >= DueAt(samples, k, n)
              && forall m :: DueFrom(samples, k, n) <= m < n ==> HeldAt(samples, k, m) < DueAt(samples, k, n)
  {
    hide SampleStep, StepAt, Emits, HeldAt, Sub32, Down, KeyStep, Quiet, Later, KeyRun, DueAt, DueFrom;
    RepeatWhenDue(samples, k, n);
    if KeyRun(samples, k, n).pressed && Repeats(k) {
      NotYetDue(samples, k, n);
    }
  }
}
