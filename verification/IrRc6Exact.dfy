/** Exactly which timings are read as an RC6 frame, stated on the durations
    (components/stark_ir/ir_rc6.c, ir_biphase.c). */
module IrRc6Exact {
  import opened Stark
  import opened IrTiming
  import opened IrBits
  import opened IrBiphase
  import opened IrRc6

  // ---- Durations and level changes -------------------------------------------

  function Total(ks: seq<nat>): nat {
    if ks == [] then 0 else Total(ks[..|ks| - 1]) + ks[|ks| - 1]
  }

  /** One of the durations ends p half-bits after the first began. */
  predicate EndsAt(ks: seq<nat>, p: nat) {
    ks != [] && (Total(ks) == p || EndsAt(ks[..|ks| - 1], p))
  }

  lemma {:induction false} EndsWithin(ks: seq<nat>, p: nat)
    requires EndsAt(ks, p)
    ensures p <= Total(ks)
    decreases |ks|
  {
    if Total(ks) != p {
      EndsWithin(ks[..|ks| - 1], p);
    }
  }

  predicate Positive(ks: seq<nat>) {
    forall i :: 0 <= i < |ks| ==> ks[i] > 0
  }

  lemma {:induction false} LevelsLength(ks: seq<nat>, first: bool)
    ensures |Levels(ks, first)| == Total(ks)
    decreases |ks|
  {
    if ks != [] {
      LevelsLength(ks[..|ks| - 1], first);
    }
  }

  /** The level at the end tells the parity of the number of durations. */
  lemma {:induction false} LastLevel(ks: seq<nat>, first: bool)
    requires ks != [] && Positive(ks)
    ensures Levels(ks, first) != []
    ensures Levels(ks, first)[|Levels(ks, first)| - 1] == Level(first, |ks| - 1)
  {
    LevelsOfMore(ks[..|ks| - 1], ks[|ks| - 1], first);
  }

  /** The level changes exactly where a duration ends. */
  lemma {:induction false} ChangesWhereEnds(ks: seq<nat>, first: bool, p: nat)
    requires Positive(ks) && 0 < p < Total(ks)
    ensures |Levels(ks, first)| == Total(ks)
    ensures Levels(ks, first)[p] != Levels(ks, first)[p - 1] <==> EndsAt(ks, p)
    decreases |ks|
  {
    LevelsLength(ks, first);
    var n := |ks| - 1;
    var rest := ks[..n];
    LevelsLength(rest, first);
    var h, last := Levels(rest, first), Rep(Level(first, n), ks[n]);
    assert Levels(ks, first) == h + last;
    if p < Total(rest) {
      ChangesWhereEnds(rest, first, p);
    } else if p == Total(rest) {
      LastLevel(rest, first);
      LevelFlips(first, n);
    } else {
      if EndsAt(rest, p) {
        EndsWithin(rest, p);
      }
    }
  }

  // ---- What 44 half-bits must look like --------------------------------------

  lemma {:induction false} ReadsWhenDiffer(h: Halves, from: nat, n: nat, oneFirst: bool)
    requires from + 2 * n <= |h|
    ensures ReadHalves(h, from, n, oneFirst).Some? <==> forall i :: 0 <= i < n ==> PairDiffers(h, from, i)
    decreases n
  {
    if n > 0 {
      ReadsWhenDiffer(h, from, n - 1, oneFirst);
      assert PairDiffers(h, from, n - 1) <==> h[from + 2 * n - 2] != h[from + 2 * n - 1];
    }
  }

  predicate PairDiffers(h: Halves, from: nat, i: nat)
    requires from + 2 * i + 1 < |h|
  {
    h[from + 2 * i] != h[from + 2 * i + 1]
  }

  /** The level changes between half-bits p - 1 and p. */
  predicate Changes(h: Halves, p: nat)
    requires 0 < p < |h|
  {
    h[p] != h[p - 1]
  }

  /** Start bit, mode 000, the double-length toggle bit and 16 data bits, as level changes. */
  predicate WellFormed(h: Halves)
    requires |h| == HALVES
  {
    && h[0]
    && Changes(h, 1) && !Changes(h, 2) && Changes(h, 3) && Changes(h, 4) && Changes(h, 5)
    && Changes(h, 6) && Changes(h, 7) && !Changes(h, 9) && Changes(h, 10) && !Changes(h, 11)
    && forall p :: 13 <= p < HALVES && p % 2 == 1 ==> Changes(h, p)
  }

  lemma {:induction false} FrameIffWellFormed(h: Halves)
    requires |h| == HALVES
    ensures FrameOf(h).Some? <==> WellFormed(h)
  {
    hide ReadHalves, FromHigh, Head, Changes, PairDiffers;
    ReadsWhenDiffer(h, 12, 16, true);
    PairsAreChanges(h);
    HeadIffChanges(h);
  }

  lemma {:induction false} PairsAreChanges(h: Halves)
    requires |h| == HALVES
    ensures (forall i :: 0 <= i < 16 ==> PairDiffers(h, 12, i)) <==>
            forall p :: 13 <= p < HALVES && p % 2 == 1 ==> Changes(h, p)
  {
    if forall p :: 13 <= p < HALVES && p % 2 == 1 ==> Changes(h, p) {
      forall i | 0 <= i < 16
        ensures PairDiffers(h, 12, i)
      {
        assert Changes(h, 13 + 2 * i);
      }
    }
    if forall i :: 0 <= i < 16 ==> PairDiffers(h, 12, i) {
      forall p | 13 <= p < HALVES && p % 2 == 1
        ensures Changes(h, p)
      {
        assert PairDiffers(h, 12, (p - 13) / 2);
      }
    }
  }

  lemma {:induction false} HeadIffChanges(h: Halves)
    requires |h| == HALVES
    ensures h[..12] == Head(h[8]) <==>
            && h[0]
            && Changes(h, 1) && !Changes(h, 2) && Changes(h, 3) && Changes(h, 4) && Changes(h, 5)
            && Changes(h, 6) && Changes(h, 7) && !Changes(h, 9) && Changes(h, 10) && !Changes(h, 11)
  {
    var s := h[..12];
    assert forall k :: 0 <= k < 12 ==> s[k] == h[k];
    if h[0] && Changes(h, 1) && !Changes(h, 2) && Changes(h, 3) && Changes(h, 4) && Changes(h, 5)
      && Changes(h, 6) && Changes(h, 7) && !Changes(h, 9) && Changes(h, 10) && !Changes(h, 11) {
      assert s == Head(h[8]);
    }
  }

  /** The same on durations: where they end, and the final space that may be missing. */
  predicate Framed(ks: seq<nat>) {
    && (Total(ks) == HALVES || (Total(ks) == HALVES - 1 && |ks| % 2 == 1))
    && EndsAt(ks, 1) && !EndsAt(ks, 2) && EndsAt(ks, 3) && EndsAt(ks, 4) && EndsAt(ks, 5)
    && EndsAt(ks, 6) && EndsAt(ks, 7) && !EndsAt(ks, 9) && EndsAt(ks, 10) && !EndsAt(ks, 11)
    && forall p :: 13 <= p < HALVES && p % 2 == 1 ==> EndsAt(ks, p)
  }

  lemma {:induction false} LevelParity(n: nat)
    ensures Level(true, n) <==> n % 2 == 0
    decreases n
  {
    if n > 0 {
      LevelParity(n - 1);
    }
  }

  lemma {:induction false} WholeChanges(ks: seq<nat>, p: nat)
    requires Positive(ks) && 0 < p < HALVES && (Total(ks) == HALVES || Total(ks) == HALVES - 1)
    ensures |Whole(Levels(ks, true))| == HALVES
    ensures p < HALVES - 1 || Total(ks) == HALVES ==> (Changes(Whole(Levels(ks, true)), p) <==> EndsAt(ks, p))
    ensures p == HALVES - 1 && Total(ks) == HALVES - 1 ==>
            EndsAt(ks, p) && (Changes(Whole(Levels(ks, true)), p) <==> |ks| % 2 == 1)
  {
    LevelsLength(ks, true);
    if p < Total(ks) {
      ChangesWhereEnds(ks, true, p);
    } else {
      LastLevel(ks, true);
      LevelParity(|ks| - 1);
    }
  }

  lemma {:induction false} FramedIffFrame(ks: seq<nat>)
    requires Positive(ks)
    ensures var h := Levels(ks, true);
            Framed(ks) <==> |Whole(h)| == HALVES && FrameOf(Whole(h)).Some?
  {
    var h := Levels(ks, true);
    LevelsLength(ks, true);
    if |Whole(h)| == HALVES {
      var w := Whole(h);
      FrameIffWellFormed(w);
      assert ks != [];
      StartsAt(ks, true);
      forall p: nat | 0 < p < HALVES
        ensures p < HALVES - 1 || Total(ks) == HALVES ==> (Changes(w, p) <==> EndsAt(ks, p))
        ensures p == HALVES - 1 && Total(ks) == HALVES - 1 ==> EndsAt(ks, p) && (Changes(w, p) <==> |ks| % 2 == 1)
      {
        WholeChanges(ks, p);
      }
      hide Changes, EndsAt, FrameOf, Levels, Total;
      assert h[0] == w[0];
      assert WellFormed(w) ==> Changes(w, HALVES - 1);
      assert Framed(ks) ==> EndsAt(ks, HALVES - 1);
      assert Framed(ks) <==> WellFormed(w);
    }
  }

  lemma {:induction false} StartsAt(ks: seq<nat>, first: bool)
    requires ks != [] && Positive(ks)
    ensures Levels(ks, first) != [] && Levels(ks, first)[0] == first
    decreases |ks|
  {
    var n := |ks| - 1;
    if n > 0 {
      StartsAt(ks[..n], first);
    } else {
      assert Levels(ks[..0], first) == [];
    }
  }

  // ---- Which timings parse ---------------------------------------------------

  /** Every duration from position `from` on as its nearest number of units. */
  function UnitsFrom(t: Timings, from: nat, unit: nat): (ks: seq<nat>)
    requires from <= |t| && unit > 0
    ensures |ks| == |t| - from
  {
    seq<nat>(|t| - from, i requires 0 <= i < |t| - from => Units(t[from + i], unit))
  }

  /** Duration i is one to three units, within its window. */
  predicate Clear(t: Timings, i: nat, unit: nat)
    requires i < |t| && unit > 0
  {
    1 <= Units(t[i], unit) <= 3 && Match(t[i], Times(Units(t[i], unit), unit), TOL_PCT)
  }

  /** All durations after the leader are clear, and end where a frame's do. */
  predicate Legible(t: Timings, unit: nat)
    requires |t| >= 3 && unit > 0
  {
    (forall i :: 2 <= i < |t| ==> Clear(t, i, unit)) && Framed(UnitsFrom(t, 2, unit))
  }

  lemma {:induction false} ClearReads(t: Timings, unit: nat)
    requires |t| >= 3 && unit > 0
    ensures (forall i :: 2 <= i < |t| ==> Clear(t, i, unit)) <==> Reads(t, 2, UnitsFrom(t, 2, unit), unit, 3)
  {
    hide Match, Units, Times;
    var ks := UnitsFrom(t, 2, unit);
    if Reads(t, 2, ks, unit, 3) {
      forall i | 2 <= i < |t|
        ensures Clear(t, i, unit)
      {
        assert 1 <= ks[i - 2] <= 3 && Units(t[2 + (i - 2)], unit) == ks[i - 2];
      }
    }
    if forall i :: 2 <= i < |t| ==> Clear(t, i, unit) {
      forall i | 0 <= i < |ks|
        ensures 1 <= ks[i] <= 3 && Units(t[2 + i], unit) == ks[i] && Match(t[2 + i], Times(ks[i], unit), TOL_PCT)
      {
        assert Clear(t, 2 + i, unit);
      }
    }
  }

  /** A list of timings is read as some frame, at a given unit, exactly when it is legible. */
  lemma {:induction false} ParsesExactly(t: Timings, unit: nat)
    requires |t| >= 3 && unit > 0
    ensures Parsed(t, unit).Some? <==> Legible(t, unit)
  {
    hide UnitsFrom, FrameOf, Clear, Framed, Levels, Expanded, Whole;
    var ks := UnitsFrom(t, 2, unit);
    ClearReads(t, unit);
    LevelsLength(ks, true);
    if Reads(t, 2, ks, unit, 3) {
      assert Positive(ks);
      FramedIffFrame(ks);
      if Total(ks) <= HALVES {
        ExpandsTo(t, 2, ks, unit, 3, true, HALVES);
      } else {
        TooLong(t, ks, unit);
      }
    }
    if Expanded(t, 2, |t| - 2, unit, 3, true, HALVES).Some? {
      var js := ExpandedReads(t, 2, |t| - 2, unit, 3, true, HALVES);
      SameUnits(t, js, unit);
    }
  }

  lemma {:induction false} SameUnits(t: Timings, js: seq<nat>, unit: nat)
    requires |t| >= 3 && unit > 0 && |js| == |t| - 2 && Reads(t, 2, js, unit, 3)
    ensures js == UnitsFrom(t, 2, unit)
  {
    hide Units, Match, Times;
  }

  lemma {:induction false} TooLong(t: Timings, ks: seq<nat>, unit: nat)
    requires |t| >= 3 && unit > 0 && |ks| == |t| - 2 && Reads(t, 2, ks, unit, 3) && Total(ks) > HALVES
    ensures Expanded(t, 2, |t| - 2, unit, 3, true, HALVES) == None && !Framed(ks)
  {
    hide Expanded, EndsAt;
    var e := Expanded(t, 2, |t| - 2, unit, 3, true, HALVES);
    if e.Some? {
      var js := ExpandedReads(t, 2, |t| - 2, unit, 3, true, HALVES);
      SameUnits(t, js, unit);
      SameUnits(t, ks, unit);
      LevelsLength(ks, true);
    }
  }

  // ---- Which frames can be taken for one another -----------------------------

  /** The first ten half-bits, as pulses: a level change always follows them. */
  function HeadPulses(toggle: bool): seq<nat> {
    if toggle then [1, 2, 1, 1, 1, 1, 3] else [1, 2, 1, 1, 1, 1, 1, 2]
  }

  lemma {:induction false} OneMorePulse(h: Halves, b: bool, g: Halves, k: nat)
    requires k > 0 && (h != [] ==> h[|h| - 1] != b) && |g| == |h| + k && h <= g
    requires forall i :: |h| <= i < |g| ==> g[i] == b
    ensures Runs(g) == Runs(h) + [k]
  {
    hide Runs;
    RunAppends(h, b, k);
    assert g == h + Rep(b, k);
  }

  lemma {:induction false} ModeRuns()
    ensures Runs([true, false, false, true, false, true, false]) == [1, 2, 1, 1, 1, 1]
  {
    hide Runs;
    NoRuns();
    OneMorePulse([], true, [true], 1);
    OneMorePulse([true], false, [true, false, false], 2);
    OneMorePulse([true, false, false], true, [true, false, false, true], 1);
    OneMorePulse([true, false, false, true], false, [true, false, false, true, false], 1);
    OneMorePulse([true, false, false, true, false], true, [true, false, false, true, false, true], 1);
    OneMorePulse([true, false, false, true, false, true], false, [true, false, false, true, false, true, false], 1);
  }

  lemma {:induction false} HeadRuns(toggle: bool)
    ensures Runs(Head(toggle)[..10]) == HeadPulses(toggle)
  {
    hide Runs;
    ModeRuns();
    var h, mode := Head(toggle)[..10], [true, false, false, true, false, true, false];
    if toggle {
      OneMorePulse(mode, true, h, 3);
    } else {
      OneMorePulse(mode, true, mode + [true], 1);
      OneMorePulse(mode + [true], false, h, 2);
    }
  }

  /** Whether the first data half-bit continues the toggle bit's second half. */
  predicate Joined(f: Frame) {
    HalvesOf(f)[12] == HalvesOf(f)[11]
  }

  /** Where the pulses after the toggle bit begin. */
  function TailFrom(f: Frame): nat {
    if Joined(f) then 13 else 12
  }

  /** The final half-bit shows only when it is a mark. */
  function Shown(f: Frame): nat {
    if HalvesOf(f)[43] then 44 else 43
  }

  function Tail(f: Frame): Halves {
    HalvesOf(f)[TailFrom(f)..Shown(f)]
  }

  lemma {:induction false} VisibleIsMost(f: Frame)
    ensures Visible(HalvesOf(f)) == HalvesOf(f)[..Shown(f)] && HalvesOf(f)[Shown(f) - 1]
  {
    hide HalvesOf, Visible, RunsWithin;
    HalvesShape(f);
    var h := HalvesOf(f);
    VisibleIs(h, 0);
    assert h[0..] == h;
  }

  lemma {:induction false} TailShape(f: Frame)
    ensures |Tail(f)| >= 30 && RunsWithin(Tail(f), 2)
    ensures Tail(f)[0] != HalvesOf(f)[11]
  {
    DataShape(f);
    var h, b := HalvesOf(f), High(Word(f), 16);
    assert Differ(h, 0);
    var d := BitHalves(b, true);
    assert h[12..] == d;
    forall p | 0 <= p && p + 2 < |d|
      ensures Breaks(d, p, 2)
    {
      NoThree(b, true, p);
    }
    hide HalvesOf, BitHalves, High, Breaks, Word;
    RunsWithinPart(d, TailFrom(f) - 12, Shown(f) - 12, 2);
    assert Tail(f) == d[TailFrom(f) - 12..Shown(f) - 12];
  }

  lemma {:induction false} HeadLevels(f: Frame)
    ensures var h := HalvesOf(f); h[..10] == Head(f.toggle != 0)[..10] && h[9] != h[10] && h[10] == h[11]
  {
    hide BitHalves, High, Word;
  }

  lemma {:induction false} RunsOfThree(a: Halves, x: bool, k: nat, b: Halves, v: Halves)
    requires a != [] && b != [] && k > 0 && a[|a| - 1] != x && b[0] != x && v == a + Rep(x, k) + b
    ensures Runs(v) == Runs(a) + [k] + Runs(b)
  {
    hide Runs;
    RunAppends(a, x, k);
    RunsSplit(a + Rep(x, k), b);
  }

  lemma {:induction false} InThree(f: Frame)
    ensures TailFrom(f) - 10 == if Joined(f) then 3 else 2
    ensures var h := HalvesOf(f); h[..Shown(f)] == h[..10] + Rep(h[10], TailFrom(f) - 10) + Tail(f)
  {
    hide HalvesOf;
    hide Rep;
    HeadLevels(f);
    var h, n := HalvesOf(f), TailFrom(f);
    assert h[10..n] == Rep(h[10], n - 10);
    assert h[..Shown(f)] == h[..10] + h[10..n] + Tail(f);
  }

  lemma PulsesAreRuns(f: Frame)
    ensures Pulses(f) == Runs(Visible(HalvesOf(f)))
  {
  }

  /** A frame's pulses: its head, the toggle bit's second half, and its data. */
  lemma {:induction false} PulsesSplit(f: Frame)
    ensures Pulses(f) == HeadPulses(f.toggle != 0) + [if Joined(f) then 3 else 2] + Runs(Tail(f))
    ensures forall k :: 0 <= k < |Runs(Tail(f))| ==> 1 <= Runs(Tail(f))[k] <= 2
  {
    VisibleIsMost(f);
    TailShape(f);
    RunsAtMost(Tail(f), 2);
    HeadRuns(f.toggle != 0);
    HeadLevels(f);
    InThree(f);
    PulsesAreRuns(f);
    hide *;
    var h := HalvesOf(f);
    RunsOfThree(h[..10], h[10], TailFrom(f) - 10, Tail(f), h[..Shown(f)]);
  }

  /** Two pulse lists that a measurement within the tolerance may confuse: two units end, and
      three begin, inside each other's windows. */
  predicate Alike(ks: seq<nat>, js: seq<nat>) {
    |ks| == |js| && forall i :: 0 <= i < |ks| ==> ks[i] == js[i] || (2 <= ks[i] <= 3 && 2 <= js[i] <= 3)
  }

  lemma {:induction false} SamePulsesSameHalves(f: Frame, g: Frame)
    requires Encodable(f) && Encodable(g) && Pulses(f) == Pulses(g)
    ensures Normal(f) == Normal(g)
  {
    hide HalvesOf, Visible, RunsWithin, FrameOf, Whole, Runs, Levels;
    VisibleShape(f);
    VisibleShape(g);
    FrameOfHalves(f);
    FrameOfHalves(g);
    LevelsOfRuns(Visible(HalvesOf(f)));
    LevelsOfRuns(Visible(HalvesOf(g)));
  }

  lemma {:induction false} SameRunsSame(a: Halves, b: Halves)
    requires a != [] && b != [] && a[0] == b[0] && Runs(a) == Runs(b)
    ensures a == b
  {
    hide Runs, Levels;
    LevelsOfRuns(a);
    LevelsOfRuns(b);
  }

  /** Pulses that may be confused have the same toggle bit, and the same data pulses. */
  lemma {:induction false} AlikeTails(f: Frame, g: Frame)
    requires Alike(Pulses(f), Pulses(g))
    ensures (f.toggle != 0) == (g.toggle != 0)
    ensures Runs(Tail(f)) == Runs(Tail(g)) && (Joined(f) == Joined(g) ==> Pulses(f) == Pulses(g))
  {
    hide Pulses, Joined, Tail, Runs;
    PulsesSplit(f);
    PulsesSplit(g);
    var ks, js := Pulses(f), Pulses(g);
    assert ks[6] == (if f.toggle != 0 then 3 else 1) && js[6] == (if g.toggle != 0 then 3 else 1);
    var n := if f.toggle != 0 then 8 else 9;
    assert ks[n..] == Runs(Tail(f)) && js[n..] == Runs(Tail(g));
    forall i | 0 <= i < |ks| - n
      ensures Runs(Tail(f))[i] == Runs(Tail(g))[i]
    {
      assert ks[n + i] == ks[n..][i] && js[n + i] == js[n..][i];
    }
  }

  /** All data bits are x. */
  predicate Uniform(f: Frame, x: bool) {
    Word(f) == if x then 0xFFFF else 0
  }

  /** The one exception: the toggle bit set and all data bits equal. */
  predicate HasTwin(f: Frame) {
    f.toggle == 1 && (Uniform(f, false) || Uniform(f, true))
  }

  /** The frame with all data bits inverted. */
  function TwinOf(f: Frame): Frame
    requires Encodable(f)
  {
    Frame(Rc6, 0xFF - f.address, 0xFF - f.command, false, f.toggle)
  }

  predicate AllAre(b: seq<bool>, x: bool) {
    forall i :: 0 <= i < |b| ==> b[i] == x
  }

  lemma AllOfMore(b: seq<bool>, y: bool, x: bool)
    ensures AllAre(b + [y], x) <==> AllAre(b, x) && y == x
  {
    var c := b + [y];
    assert c[..|b|] == b && c[|b|] == y;
    assert AllAre(c, x) ==> forall i :: 0 <= i < |b| ==> c[i] == b[i];
  }

  lemma {:induction false} UniformBits(w: nat, n: nat, x: bool)
    requires w < Pow2(n)
    ensures AllAre(High(w, n), x) <==> w == if x then Pow2(n) - 1 else 0
    decreases n
  {
    if n > 0 {
      UniformBits(w / 2, n - 1, x);
      AllOfMore(High(w / 2, n - 1), w % 2 == 1, x);
      assert High(w, n) == High(w / 2, n - 1) + [w % 2 == 1];
      assert Pow2(n) == 2 * Pow2(n - 1);
      hide AllAre, High, Pow2;
    }
  }

  /** From the data on, the half-bits alternate, the even ones being x. */
  predicate Alternating(h: Halves, x: bool)
    requires |h| == HALVES
  {
    forall k :: 12 <= k < HALVES ==> (h[k] <==> (k % 2 == 0) == x)
  }

  lemma {:induction false} AlternatingBits(h: Halves, b: seq<bool>, x: bool)
    requires |h| == HALVES && |b| == 16
    requires forall i :: 0 <= i < 16 ==> h[12 + 2 * i] == b[i] && h[13 + 2 * i] == !b[i]
    ensures Alternating(h, x) <==> AllAre(b, x)
  {
    if AllAre(b, x) {
      forall k | 12 <= k < HALVES
        ensures h[k] <==> (k % 2 == 0) == x
      {
        var i := (k - 12) / 2;
        assert b[i] == x && (k == 12 + 2 * i || k == 13 + 2 * i);
      }
    }
    if Alternating(h, x) {
      forall i | 0 <= i < 16
        ensures b[i] == x
      {
        assert h[12 + 2 * i] == b[i];
      }
    }
  }

  /** Equal data bits are alternating half-bits. */
  lemma {:induction false} UniformHalves(f: Frame, x: bool)
    requires Encodable(f)
    ensures Uniform(f, x) <==> Alternating(HalvesOf(f), x)
  {
    hide High, HalvesOf, Pow2, Alternating, AllAre;
    Pow2Is16();
    UniformBits(Word(f), 16, x);
    var b, h := High(Word(f), 16), HalvesOf(f);
    forall i | 0 <= i < 16
      ensures h[12 + 2 * i] == b[i] && h[13 + 2 * i] == !b[i]
    {
      DataAt(f, i);
    }
    AlternatingBits(h, b, x);
  }

  lemma {:induction false} DataAt(f: Frame, i: nat)
    requires i < 16
    ensures var b, h := High(Word(f), 16), HalvesOf(f); h[12 + 2 * i] == b[i] && h[13 + 2 * i] == !b[i]
  {
    hide BitHalves, High, Word;
    BitHalvesAt(High(Word(f), 16), true, i);
  }

  /** One frame's data joined to its toggle bit and the other's not, with the same pulses after
      that: the half-bits are shifted by one, so they alternate to the end. */
  lemma {:induction false} ShiftedData(f: Frame, g: Frame)
    requires Encodable(f) && Encodable(g) && (f.toggle != 0) == (g.toggle != 0)
    requires Joined(f) && !Joined(g) && Runs(Tail(f)) == Runs(Tail(g))
    ensures f.toggle == 1 && g.toggle == 1 && Uniform(f, false) && Uniform(g, true)
  {
    TailShape(f);
    TailShape(g);
    DataShape(f);
    DataShape(g);
    ToggleLevels(f);
    ToggleLevels(g);
    var a, b := HalvesOf(f), HalvesOf(g);
    UniformHalves(f, false);
    UniformHalves(g, true);
    hide HalvesOf, Runs, RunsWithin, Uniform, Encodable;
    SameRunsSame(Tail(f), Tail(g));
    assert Shown(f) == 44 && Shown(g) == 43;
    forall k | 13 <= k < 44
      ensures a[k] == b[k - 1]
    {
      assert Tail(f)[k - 13] == Tail(g)[k - 13];
    }
    Alternate(a, b);
  }

  lemma ToggleLevels(f: Frame)
    requires Encodable(f)
    ensures HalvesOf(f)[11] == (f.toggle != 1)
  {
    hide BitHalves, High, Word;
  }

  lemma {:induction false} Alternate(a: Halves, b: Halves)
    requires |a| == HALVES && |b| == HALVES && (forall i :: 0 <= i < 16 ==> Differ(a, i) && Differ(b, i))
    requires a[43] && forall k :: 13 <= k < 44 ==> a[k] == b[k - 1]
    ensures Alternating(a, false) && Alternating(b, true)
  {
    AlternateFrom(a, b, 12);
    assert Differ(b, 15);
    forall k | 12 <= k < 44
      ensures b[k] <==> k % 2 == 0
    {
      assert k < 43 ==> b[k] == a[k + 1];
    }
  }

  lemma {:induction false} AlternateFrom(a: Halves, b: Halves, n: nat)
    requires |a| == HALVES && |b| == HALVES && (forall i :: 0 <= i < 16 ==> Differ(a, i) && Differ(b, i))
    requires a[43] && (forall k :: 13 <= k < 44 ==> a[k] == b[k - 1]) && 12 <= n < 44
    ensures forall k :: n <= k < 44 ==> (a[k] <==> k % 2 == 1)
    decreases 44 - n
  {
    if n < 43 {
      AlternateFrom(a, b, n + 1);
      var i := (n - 12) / 2;
      assert Differ(a, i) && Differ(b, i);
      assert a[n] != a[n + 1];
    }
  }

  /** Two frames that can be confused are the same frame, or one of the two pairs of twins,
      which differ in the eighth pulse alone. */
  lemma {:induction false} OnlyTwinsAreAlike(f: Frame, g: Frame)
    requires Encodable(f) && Encodable(g) && Alike(Pulses(f), Pulses(g)) && Normal(f) != Normal(g)
    ensures HasTwin(f) && Normal(g) == TwinOf(f)
  {
    hide Pulses, Joined, Tail, Runs, Alike;
    AlikeTails(f, g);
    if Joined(f) == Joined(g) {
      SamePulsesSameHalves(f, g);
    } else if Joined(f) {
      ShiftedData(f, g);
    } else {
      ShiftedData(g, f);
    }
  }

  lemma {:induction false} TwinPulses(f: Frame)
    requires Encodable(f) && HasTwin(f)
    ensures Encodable(TwinOf(f)) && |Pulses(f)| > 7 && 2 <= Pulses(f)[7] <= 3
    ensures Pulses(TwinOf(f)) == Pulses(f)[7 := 5 - Pulses(f)[7]]
  {
    hide Pulses, Joined, Tail, Runs, TwinOf, Uniform, Encodable;
    TwinWord(f);
    var g := TwinOf(f);
    PulsesSplit(f);
    PulsesSplit(g);
    if Uniform(f, false) {
      SameTails(f, g);
    } else {
      SameTails(g, f);
    }
    assert HeadPulses(f.toggle != 0) == HeadPulses(g.toggle != 0) == HeadPulses(true);
    Eighth(Pulses(f), Pulses(g), HeadPulses(true), Runs(Tail(f)));
  }

  lemma Eighth(ks: seq<nat>, js: seq<nat>, head: seq<nat>, tail: seq<nat>)
    requires |head| == 7
    requires || (ks == head + [3] + tail && js == head + [2] + tail)
             || (ks == head + [2] + tail && js == head + [3] + tail)
    ensures |ks| > 7 && 2 <= ks[7] <= 3 && js == ks[7 := 5 - ks[7]]
  {
  }

  lemma TwinWord(f: Frame)
    requires Encodable(f) && HasTwin(f)
    ensures var g := TwinOf(f); Encodable(g) && g.toggle == 1
    ensures Uniform(f, false) ==> Uniform(TwinOf(f), true)
    ensures Uniform(f, true) ==> Uniform(TwinOf(f), false)
  {
  }

  lemma {:induction false} SameTails(f: Frame, g: Frame)
    requires Encodable(f) && Encodable(g) && f.toggle == 1 && g.toggle == 1 && Uniform(f, false) && Uniform(g, true)
    ensures Joined(f) && !Joined(g) && Tail(f) == Tail(g)
  {
    hide HalvesOf, Uniform, Encodable, Alternating;
    UniformHalves(f, false);
    UniformHalves(g, true);
    ToggleLevels(f);
    ToggleLevels(g);
    Shifted(HalvesOf(f), HalvesOf(g));
  }

  lemma {:induction false} Shifted(a: Halves, b: Halves)
    requires |a| == HALVES && |b| == HALVES && Alternating(a, false) && Alternating(b, true)
    ensures !a[12] && a[43] && b[12] && !b[43] && a[13..44] == b[12..43]
  {
    forall k | 0 <= k < 31
      ensures a[13..44][k] == b[12..43][k]
    {
      assert a[13 + k] == b[12 + k];
    }
  }

  // ---- The full tolerance ----------------------------------------------------

  /** Pulse i is nearest to k nominal units: 2 units end, and 3 units begin, at 2.5. */
  predicate NearestIs(t: Timings, i: nat, k: int)
    requires 2 + i < |t|
  {
    Units(t[2 + i], UNIT) == k
  }

  /** Every pulse is nearest to its own number of nominal units. */
  predicate AllNearest(t: Timings, ks: seq<nat>)
    requires |t| == 2 + |ks|
  {
    forall i :: 0 <= i < |ks| ==> NearestIs(t, i, ks[i])
  }

  /** The twin's number of units for pulse i. */
  function TwinUnits(ks: seq<nat>, i: nat): int
    requires i < |ks|
  {
    var k: int := ks[i];
    if i == 7 then 5 - k else k
  }

  /** All pulses are nearest to their own units but the eighth, a two read as a three or a three
      as a two: that makes the frame its twin. */
  predicate LooksLikeTwin(f: Frame, t: Timings)
    requires |t| == 2 + |Pulses(f)|
  {
    var ks := Pulses(f);
    HasTwin(f) && forall i :: 0 <= i < |ks| ==> NearestIs(t, i, TwinUnits(ks, i))
  }

  /** Mark and space of the leader point at the same unit, which is near the nominal one. */
  predicate LeaderAgrees(t: Timings)
    requires |t| >= 2
  {
    var unit := (t[0] + t[1]) / 8;
    Apart(t[0] / 6, t[1] / 2) * 10 <= unit && Match(unit, UNIT, TOL_PCT)
  }

  function LeaderUnit(t: Timings): nat
    requires |t| >= 2
  {
    (t[0] + t[1]) / 8
  }

  predicate PulsesNear(t: Timings, ks: seq<nat>)
    requires |t| == 2 + |ks|
  {
    forall i :: 0 <= i < |ks| ==> 1 <= ks[i] <= 3 && PulseNear(t, i, ks[i], TOL_PCT)
  }

  lemma {:induction false} ReadsExactly(t: Timings, ks: seq<nat>)
    requires |t| == 2 + |ks| && PulsesNear(t, ks)
    ensures Reads(t, 2, ks, UNIT, 3) <==> AllNearest(t, ks)
  {
    hide Match, Times, Units;
    if AllNearest(t, ks) {
      forall i | 0 <= i < |ks|
        ensures Units(t[2 + i], UNIT) == ks[i] && Match(t[2 + i], Times(ks[i], UNIT), TOL_PCT)
      {
        assert PulseNear(t, i, ks[i], TOL_PCT) && NearestIs(t, i, ks[i]);
      }
    }
    if Reads(t, 2, ks, UNIT, 3) {
      assert forall i :: 0 <= i < |ks| ==> Units(t[2 + i], UNIT) == ks[i];
    }
  }

  /** What a duration within the window of k units can be read as, and that it then matches. */
  lemma SlipsByOne(d: nat, k: nat)
    requires 1 <= k <= 3 && Match(d, Times(k, UNIT), TOL_PCT)
    ensures k == 1 ==> Units(d, UNIT) == 1
    ensures k > 1 ==> 2 <= Units(d, UNIT)
    ensures Units(d, UNIT) <= 3 ==> Match(d, Times(Units(d, UNIT), UNIT), TOL_PCT)
  {
  }

  /** The last pulse is a mark, so what was expanded has no final space. */
  lemma {:induction false} ExpandedIsVisible(e: Halves, g: Frame)
    requires Encodable(g) && |Whole(e)| == HALVES && e[|e| - 1] && FrameOf(Whole(e)) == Some(Normal(g))
    ensures e == Visible(HalvesOf(g))
  {
    hide HalvesOf, Visible, FrameOf;
    HalvesOfFrame(Whole(e), g);
    VisibleIsMost(g);
    assert |e| == Shown(g);
  }

  lemma {:induction false} LastMark(v: Halves)
    requires v != [] && v[0]
    ensures v[|v| - 1] <==> |Runs(v)| % 2 == 1
  {
    hide Runs, Levels, Level;
    LevelsOfRuns(v);
    LevelParity(|Runs(v)| - 1);
  }

  lemma {:induction false} ParsedLevels(t: Timings, unit: nat) returns (ks: seq<nat>)
    requires |t| >= 3 && unit > 0 && Parsed(t, unit).Some?
    ensures |ks| == |t| - 2 && Reads(t, 2, ks, unit, 3) && Positive(ks) && Runs(Levels(ks, true)) == ks
    ensures var w := Whole(Levels(ks, true)); |w| == HALVES && FrameOf(w) == Parsed(t, unit)
  {
    hide Expanded, FrameOf, Levels, Runs, Units, Match, Times;
    ks := ExpandedReads(t, 2, |t| - 2, unit, 3, true, HALVES);
    RunsOfLevels(ks, true);
  }

  lemma {:induction false} MarkLast(ks: seq<nat>)
    requires Positive(ks) && |ks| % 2 == 1
    ensures var e := Levels(ks, true); e != [] && e[|e| - 1]
  {
    hide Levels, Level;
    LastLevel(ks, true);
    LevelParity(|ks| - 1);
  }

  /** What parses is some frame's pulses; their number being odd, exactly those pulses. */
  lemma {:induction false} ParsedReads(t: Timings, unit: nat) returns (g: Frame)
    requires |t| >= 3 && |t| % 2 == 1 && unit > 0 && Parsed(t, unit).Some?
    ensures Encodable(g) && Parsed(t, unit) == Some(g) && g == Normal(g) && |t| == 2 + |Pulses(g)|
            && Reads(t, 2, Pulses(g), unit, 3)
  {
    hide *;
    g := Parsed(t, unit).value;
    ParsedEncodable(t, unit);
    var ks := ParsedLevels(t, unit);
    MarkLast(ks);
    PulsesAreRuns(g);
    ExpandedIsVisible(Levels(ks, true), g);
  }

  lemma {:induction false} ParsedEncodable(t: Timings, unit: nat)
    requires |t| >= 3 && unit > 0 && Parsed(t, unit).Some?
    ensures Encodable(Parsed(t, unit).value) && Normal(Parsed(t, unit).value) == Parsed(t, unit).value
  {
    hide Expanded, ReadHalves, FromHigh, Head;
    var h := Whole(Expanded(t, 2, |t| - 2, unit, 3, true, HALVES).value);
    FromHighBound(ReadHalves(h, 12, 16, true).value);
    Pow2Is16();
  }

  lemma {:induction false} ReadAlike(t: Timings, ks: seq<nat>, js: seq<nat>)
    requires |t| == 2 + |ks| && |js| == |ks| && PulsesNear(t, ks) && Reads(t, 2, js, UNIT, 3)
    ensures Alike(ks, js)
  {
    hide Match, Times, Units;
    forall i | 0 <= i < |ks|
      ensures ks[i] == js[i] || (2 <= ks[i] <= 3 && 2 <= js[i] <= 3)
    {
      assert PulseNear(t, i, ks[i], TOL_PCT);
      SlipsByOne(t[2 + i], ks[i]);
      assert Units(t[2 + i], UNIT) == js[i];
    }
  }

  lemma {:induction false} PulseCountIsOdd(f: Frame)
    ensures |Pulses(f)| % 2 == 1 && |Pulses(f)| >= 8
  {
    hide Visible, HalvesOf, Runs;
    VisibleShape(f);
    LastMark(Visible(HalvesOf(f)));
    PulsesSplit(f);
  }

  /** Within the full tolerance the nominal unit gives a wrong frame only for a twin. */
  lemma {:induction false} WrongExactly(f: Frame, t: Timings)
    requires Encodable(f) && |t| == 2 + |Pulses(f)| && PulsesNear(t, Pulses(f)) && !AllNearest(t, Pulses(f))
    ensures Parsed(t, UNIT).Some? <==> LooksLikeTwin(f, t)
    ensures Parsed(t, UNIT).Some? ==> Parsed(t, UNIT) == Some(TwinOf(f)) && TwinOf(f) != Normal(f)
  {
    hide Parsed, Pulses, NearestIs, PulseNear, Reads, Alike, Encodable, AllNearest, PulsesNear, TwinOf;
    PulseCountIsOdd(f);
    ReadsExactly(t, Pulses(f));
    ParsedExactly(f, t, UNIT);
    if Parsed(t, UNIT).Some? {
      var g := ParsedReads(t, UNIT);
      ReadAlike(t, Pulses(f), Pulses(g));
      OnlyTwinsAreAlike(f, g);
      TwinReads(f, t);
    }
    if LooksLikeTwin(f, t) {
      TwinIsParsed(f, t);
    }
  }

  lemma {:induction false} TwinIsParsed(f: Frame, t: Timings)
    requires Encodable(f) && |t| == 2 + |Pulses(f)| && |t| >= 3 && PulsesNear(t, Pulses(f)) && LooksLikeTwin(f, t)
    ensures Parsed(t, UNIT) == Some(TwinOf(f)) && TwinOf(f) != Normal(f)
  {
    hide Parsed, Pulses, NearestIs, PulseNear, Reads;
    TwinPulses(f);
    TwinReads(f, t);
    ParsedExactly(TwinOf(f), t, UNIT);
  }

  /** The twin is read exactly when all but the eighth pulse are nearest to their own units, and
      that one to the twin's. */
  lemma {:induction false} TwinReads(f: Frame, t: Timings)
    requires Encodable(f) && HasTwin(f) && |t| == 2 + |Pulses(f)| && PulsesNear(t, Pulses(f))
    ensures |Pulses(TwinOf(f))| == |Pulses(f)|
    ensures Reads(t, 2, Pulses(TwinOf(f)), UNIT, 3) <==> LooksLikeTwin(f, t)
  {
    hide Pulses, TwinOf, HasTwin, Match, Times, Units, Encodable;
    TwinPulses(f);
    var ks, js := Pulses(f), Pulses(TwinOf(f));
    if LooksLikeTwin(f, t) {
      forall i | 0 <= i < |js|
        ensures 1 <= js[i] <= 3 && Units(t[2 + i], UNIT) == js[i] && Match(t[2 + i], Times(js[i], UNIT), TOL_PCT)
      {
        assert PulseNear(t, i, ks[i], TOL_PCT);
        SlipsByOne(t[2 + i], ks[i]);
        assert NearestIs(t, i, TwinUnits(ks, i));
      }
    }
    if Reads(t, 2, js, UNIT, 3) {
      forall i | 0 <= i < |ks|
        ensures NearestIs(t, i, TwinUnits(ks, i))
      {
        assert Units(t[2 + i], UNIT) == js[i];
      }
    }
  }

  lemma {:induction false} DecodedTwice(t: Timings)
    requires |t| >= 3 && Match(t[0], LEAD_MARK, TOL_PCT) && Match(t[1], LEAD_SPACE, TOL_PCT)
    ensures Decoded(t) == if Parsed(t, UNIT).Some? then Parsed(t, UNIT)
                          else if LeaderAgrees(t) then Parsed(t, LeaderUnit(t)) else None
  {
    hide Parsed, Match;
  }

  /** Within the full 25 %, whatever the leader, a frame is decoded back exactly when every pulse
      is nearest to its own number of nominal units; or the leader agrees on a unit by which
      every pulse is read as its own number, and the frame does not look like its twin. */
  lemma {:induction false} FullToleranceExactly(f: Frame, t: Timings)
    requires Encodable(f) && Near(t, Nominal(f), TOL_PCT)
    ensures |t| == 2 + |Pulses(f)| && |t| >= 3
    ensures Decoded(t) == Some(Normal(f)) <==>
            || AllNearest(t, Pulses(f))
            || (LeaderAgrees(t) && Reads(t, 2, Pulses(f), LeaderUnit(t), 3) && !LooksLikeTwin(f, t))
    ensures LooksLikeTwin(f, t) ==> Decoded(t) == Some(TwinOf(f)) && TwinOf(f) != Normal(f)
  {
    NearParts(f, t);
    var ks := Pulses(f);
    ReadsExactly(t, ks);
    ParsedExactly(f, t, UNIT);
    DecodedTwice(t);
    AgreedUnit(t);
    if LeaderAgrees(t) {
      ParsedExactly(f, t, LeaderUnit(t));
    }
    if !AllNearest(t, ks) {
      WrongExactly(f, t);
    } else {
      NotTwin(f, t);
    }
    hide *;
  }

  lemma AgreedUnit(t: Timings)
    requires |t| >= 2
    ensures LeaderAgrees(t) ==> LeaderUnit(t) > 0
  {
  }

  lemma NotTwin(f: Frame, t: Timings)
    requires |t| == 2 + |Pulses(f)| && |Pulses(f)| >= 8 && AllNearest(t, Pulses(f))
    ensures !LooksLikeTwin(f, t)
  {
    hide Pulses, HasTwin, Units;
    assert NearestIs(t, 7, Pulses(f)[7]);
    assert !NearestIs(t, 7, TwinUnits(Pulses(f), 7));
  }

  lemma {:induction false} NearParts(f: Frame, t: Timings)
    requires Near(t, Nominal(f), TOL_PCT)
    ensures |t| == 2 + |Pulses(f)| && |t| >= 10 && PulsesNear(t, Pulses(f))
    ensures Match(t[0], LEAD_MARK, TOL_PCT) && Match(t[1], LEAD_SPACE, TOL_PCT)
  {
    hide Pulses, Scaled, Match;
    PulsesAre(f);
    PulseCountIsOdd(f);
    NearPulses(f, t, TOL_PCT);
    assert Match(t[0], Nominal(f)[0], TOL_PCT) && Match(t[1], Nominal(f)[1], TOL_PCT);
  }

  /** So at the full 25 % no frame is safe: one two-unit pulse measured at 2.5 units, the edge
      of its window, already spoils it. */
  lemma {:induction false} FullToleranceFails(f: Frame)
    requires Encodable(f)
    ensures |Nominal(f)| > 3
    ensures var t := Nominal(f)[3 := 1110]; Near(t, Nominal(f), TOL_PCT) && Decoded(t) != Some(Normal(f))
  {
    SecondPulse(f);
    var t := Nominal(f)[3 := 1110];
    NearItself(Nominal(f), TOL_PCT);
    assert Match(1110, 888, TOL_PCT);
    assert Near(t, Nominal(f), TOL_PCT) by {
      hide Nominal, Pulses, Match;
    }
    assert !Reads(t, 2, Pulses(f), UNIT, 3) by {
      assert Units(t[2 + 1], UNIT) != Pulses(f)[1];
      hide Match, Units, Times, Pulses, Nominal;
    }
    hide Nominal, Pulses, Decoded, Near, Reads, HasTwin;
    FullToleranceExactly(f, t);
    assert !NearestIs(t, 1, Pulses(f)[1]);
    assert LeaderUnit(t) == UNIT;
  }

  lemma {:induction false} SecondPulse(f: Frame)
    ensures |Pulses(f)| >= 8 && Pulses(f)[1] == 2
    ensures |Nominal(f)| == 2 + |Pulses(f)| && Nominal(f)[0] == LEAD_MARK && Nominal(f)[1] == LEAD_SPACE
    ensures Nominal(f)[3] == 888
  {
    hide Pulses, Runs, Tail, Joined, Scaled, Nominal;
    PulsesAre(f);
    PulseCountIsOdd(f);
    PulsesSplit(f);
    var ks := Pulses(f);
    ScaledAt(ks, UNIT, 1);
    assert ks[1] == HeadPulses(f.toggle != 0)[1];
    assert Nominal(f)[3] == Scaled(ks, UNIT)[1];
  }

  /** The leader is within its window, and the rest legible by the nominal unit; or the leader
      agrees on a unit by which the rest is. */
  predicate Acceptable(t: Timings)
    requires |t| >= 3
  {
    || (Match(t[0], LEAD_MARK, TOL_PCT) && Match(t[1], LEAD_SPACE, TOL_PCT) && Legible(t, UNIT))
    || (LeaderAgrees(t) && Legible(t, LeaderUnit(t)))
  }

  /** Which timings this decoder accepts at all. */
  lemma {:induction false} AcceptsExactly(t: Timings)
    ensures Decoded(t).Some? <==> |t| >= 3 && Acceptable(t)
  {
    if |t| >= 3 {
      ParsesExactly(t, UNIT);
      if LeaderAgrees(t) {
        ParsesExactly(t, LeaderUnit(t));
      }
      hide Parsed, Legible, Match;
    }
  }

  /** Legible timings begin with one clear unit. */
  lemma {:induction false} LegibleStart(t: Timings, unit: nat)
    requires |t| >= 3 && unit > 0 && Legible(t, unit)
    ensures Units(t[2], unit) == 1 && Match(t[2], unit, TOL_PCT)
  {
    assert Clear(t, 2, unit);
    FirstEnd(UnitsFrom(t, 2, unit), 1);
    hide Match, Units, Framed;
    assert UnitsFrom(t, 2, unit)[0] == Units(t[2], unit);
    assert Times(1, unit) == unit;
  }

  /** Nothing ends before the first duration does. */
  lemma {:induction false} FirstEnd(ks: seq<nat>, p: nat)
    requires EndsAt(ks, p)
    ensures ks[0] <= p
    decreases |ks|
  {
    if EndsAt(ks[..|ks| - 1], p) {
      FirstEnd(ks[..|ks| - 1], p);
    } else if |ks| > 1 {
      TotalFirst(ks);
    }
  }

  lemma {:induction false} TotalFirst(ks: seq<nat>)
    requires ks != []
    ensures ks[0] <= Total(ks)
    decreases |ks|
  {
    if |ks| > 1 {
      TotalFirst(ks[..|ks| - 1]);
    }
  }
}
