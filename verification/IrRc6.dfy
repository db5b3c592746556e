/** Philips RC6 mode 0 (components/stark_ir/ir_rc6.c). */
module IrRc6 {
  import opened Stark
  import opened IrTiming
  import opened IrBits
  import opened IrBiphase

  const UNIT := 444
  const LEAD_MARK := 2666
  const LEAD_SPACE := 889
  const HALVES := 44
  const SAFE_PCT := 15

  predicate Encodable(f: Frame) {
    f.protocol == Rc6 && f.address < 0x100 && f.command < 0x100 && f.toggle < 2
  }

  function Word(f: Frame): nat {
    0x100 * f.address + f.command
  }

  /** Start bit, mode 000 and the toggle at double length. */
  function Head(toggle: bool): Halves {
    [true, false, false, true, false, true, false, true, toggle, toggle, !toggle, !toggle]
  }

  function HalvesOf(f: Frame): (h: Halves)
    ensures |h| == HALVES
  {
    Head(f.toggle != 0) + BitHalves(High(Word(f), 16), true)
  }

  function Nominal(f: Frame): Timings {
    [LEAD_MARK, LEAD_SPACE] + Emitted(HalvesOf(f), UNIT)
  }

  /** The frame that 44 half-bits say. */
  function FrameOf(h: Halves): Option<Frame>
    requires |h| == HALVES
  {
    if h[..12] != Head(h[8]) then None
    else
      match ReadHalves(h, 12, 16, true)
      case None => None
      case Some(b) =>
        FromHighBound(b);
        Pow2Is16();
        Some(Frame(Rc6, FromHigh(b) / 0x100, FromHigh(b) % 0x100, false, Bit(h[8])))
  }

  lemma Pow2Is16()
    ensures Pow2(16) == 0x1_0000
  {
    assert Pow2(8) == 0x100;
  }

  /** The half-bits with a final invisible space put back. */
  function Whole(g: Halves): Halves {
    if |g| == HALVES - 1 then g + [false] else g
  }

  function Parsed(t: Timings, unit: nat): Option<Frame>
    requires |t| >= 3 && unit > 0
  {
    match Expanded(t, 2, |t| - 2, unit, 3, true, HALVES)
    case None => None
    case Some(g) => if |Whole(g)| != HALVES then None else FrameOf(Whole(g))
  }

  function Apart(a: nat, b: nat): nat {
    if a > b then a - b else b - a
  }

  /** The nominal unit, then a unit both parts of the leader agree on. */
  function Decoded(t: Timings): Option<Frame> {
    if |t| < 3 then None
    else
      var lead := Match(t[0], LEAD_MARK, TOL_PCT) && Match(t[1], LEAD_SPACE, TOL_PCT);
      var first := if lead then Parsed(t, UNIT) else None;
      var unit := (t[0] + t[1]) / 8;
      if first.Some? then first
      else if Apart(t[0] / 6, t[1] / 2) * 10 > unit || !Match(unit, UNIT, TOL_PCT) then None
      else Parsed(t, unit)
  }

  function Normal(f: Frame): Frame {
    f.(again := false)
  }

  // ---- Frames and half-bits --------------------------------------------------

  lemma {:induction false} FrameOfHalves(f: Frame)
    requires Encodable(f)
    ensures FrameOf(HalvesOf(f)) == Some(Normal(f))
  {
    hide BitHalves, High, FromHigh, ReadHalves;
    var h := HalvesOf(f);
    var b := High(Word(f), 16);
    assert h[..12] == Head(f.toggle != 0);
    assert h[12..12 + 2 * 16] == BitHalves(b, true);
    HalvesReadBack(h, 12, 16, true, b);
    Pow2Is16();
    HighIsAll(Word(f), 16);
    assert Word(f) / 0x100 == f.address && Word(f) % 0x100 == f.command;
  }

  /** Only its own half-bits say a frame. */
  lemma {:induction false} HalvesOfFrame(h: Halves, f: Frame)
    requires |h| == HALVES && Encodable(f) && FrameOf(h) == Some(Normal(f))
    ensures h == HalvesOf(f)
  {
    hide BitHalves, High, FromHigh, ReadHalves, Head;
    var b := ReadHalves(h, 12, 16, true).value;
    HalvesReadBack(h, 12, 16, true, b);
    HighOfFrom(b);
    FromHighBound(b);
    Pow2Is16();
    TopAndLow(FromHigh(b));
    HeadToggle(h[8], f.toggle);
    assert h == h[..12] + h[12..44];
  }

  lemma TopAndLow(n: nat)
    ensures n == 0x100 * (n / 0x100) + n % 0x100
  {
  }

  lemma HeadToggle(first: bool, toggle: nat)
    requires Bit(first) == toggle
    ensures first == (toggle != 0)
  {
  }

  lemma {:induction false} HeadShape(f: Frame)
    ensures var h := HalvesOf(f); h[0] && !h[1] && h[2] != h[3] && h[4] != h[5] && h[6] != h[7] && h[9] != h[10]
  {
    hide BitHalves, High, Word;
  }

  lemma {:induction false} DataShape(f: Frame)
    ensures forall i :: 0 <= i < 16 ==> Differ(HalvesOf(f), i)
  {
    hide BitHalves, High, Word;
    var b := High(Word(f), 16);
    forall i | 0 <= i < 16
      ensures Differ(HalvesOf(f), i)
    {
      BitHalvesAt(b, true, i);
    }
  }

  /** The start bit comes first, the last two half-bits differ, and no level lasts longer than
      three half-bits. */
  lemma {:induction false} HalvesShape(f: Frame)
    ensures var h := HalvesOf(f);
            && |h| == HALVES && h[0] && (h[43] <==> !h[42])
            && RunsWithin(h, 3)
  {
    hide HalvesOf;
    HeadShape(f);
    DataShape(f);
    var h := HalvesOf(f);
    assert Differ(h, 15);
    forall p | 0 <= p < HALVES - 3
      ensures Breaks(h, p, 3)
    {
      NoFour(h, p);
    }
  }

  lemma {:induction false} NoFour(h: Halves, p: nat)
    requires |h| == HALVES && p < HALVES - 3
    requires h[0] != h[1] && h[2] != h[3] && h[4] != h[5] && h[6] != h[7] && h[9] != h[10]
    requires forall i :: 0 <= i < 16 ==> Differ(h, i)
    ensures Breaks(h, p, 3)
  {
    if p >= 10 {
      var i := (p - 10) / 2;
      assert Differ(h, i);
      assert p == 10 + 2 * i || p == 11 + 2 * i;
    }
    assert h[p] != h[p + 1] || h[p] != h[p + 2] || h[p] != h[p + 3];
  }

  /** The two half-bits of data bit i differ. */
  predicate Differ(h: Halves, i: nat)
    requires |h| == HALVES && i < 16
  {
    h[12 + 2 * i] != h[12 + 2 * i + 1]
  }

  lemma {:induction false} VisibleShape(f: Frame)
    ensures var v := Visible(HalvesOf(f));
            && v != [] && v[0] && |v| <= HALVES && v[|v| - 1] && Whole(v) == HalvesOf(f) && RunsWithin(v, 3)
  {
    hide HalvesOf, Visible;
    hide RunsWithin;
    HalvesShape(f);
    var h := HalvesOf(f);
    VisibleIs(h, 0);
    RunsWithinPart(h, 0, if h[|h| - 1] then |h| else |h| - 1, 3);
    assert h[0..] == h;
    var v := Visible(h);
    if h[|h| - 1] {
      assert v == h;
    } else {
      assert v == h[0..|h| - 1] && v + [false] == h && v[|v| - 1] == h[|h| - 2];
    }
  }

  // ---- Tolerance -------------------------------------------------------------

  /** Every pulse's number of units, without the leader. */
  function Pulses(f: Frame): seq<nat> {
    Runs(Visible(HalvesOf(f)))
  }

  lemma {:induction false} PulsesAre(f: Frame)
    ensures Nominal(f) == [LEAD_MARK, LEAD_SPACE] + Scaled(Pulses(f), UNIT) && Pulses(f) != []
    ensures |Nominal(f)| == 2 + |Pulses(f)| && forall k :: 0 <= k < |Pulses(f)| ==> 1 <= Pulses(f)[k] <= 3
  {
    VisibleShape(f);
    RunsAtMost(Visible(HalvesOf(f)), 3);
  }

  /** Timings of the right number of pulses parse to the frame exactly when every pulse matches
      and is nearest to its own number of units. */
  lemma {:induction false} ParsedExactly(f: Frame, t: Timings, unit: nat)
    requires Encodable(f) && |t| == 2 + |Pulses(f)| && unit > 0 && |t| >= 3
    ensures Parsed(t, unit) == Some(Normal(f)) <==> Reads(t, 2, Pulses(f), unit, 3)
  {
    hide HalvesOf, Visible, FrameOf, Runs, Expanded, Reads, RunsWithin, Encodable;
    VisibleShape(f);
    FrameOfHalves(f);
    var v := Visible(HalvesOf(f));
    if Reads(t, 2, Pulses(f), unit, 3) {
      VisibleReadsBack(t, 2, v, unit, 3, HALVES);
    }
    if Parsed(t, unit) == Some(Normal(f)) {
      var g := Expanded(t, 2, |t| - 2, unit, 3, true, HALVES).value;
      HalvesOfFrame(Whole(g), f);
      OnlyThoseRead(t, 2, g, unit, 3, HALVES);
      SamePulses(g, v);
    }
  }

  /** With as many runs, the final space cannot have been measured. */
  lemma {:induction false} SamePulses(g: Halves, v: Halves)
    requires Whole(g) == Whole(v) && |Whole(v)| == HALVES && v[|v| - 1] && |Runs(g)| == |Runs(v)|
    ensures g == v
  {
    assert |g| == HALVES - 1 ==> !Whole(g)[HALVES - 1];
    assert |v| == HALVES ==> Whole(v)[HALVES - 1];
    if |v| < |g| {
      assert g == v + [false];
      RunsOfMore(v, false);
    }
    if |g| == |v| {
      assert Whole(g)[..|g|] == g && Whole(v)[..|v|] == v;
    }
  }

  /** The tolerance windows of one, two and three units at 15 % hold only durations nearest to
      that number. */
  lemma {:induction false} UnitsInWindow(d: nat, k: nat)
    requires 1 <= k <= 3 && Match(d, Times(k, UNIT), SAFE_PCT)
    ensures Units(d, UNIT) == k && Match(d, Times(k, UNIT), TOL_PCT)
  {
  }

  /** Every frame the encoder accepts is decoded back as long as each duration stays within
      15 % of its own. */
  lemma {:induction false} ToleratesJitter(f: Frame, t: Timings)
    requires Encodable(f) && Near(t, Nominal(f), SAFE_PCT)
    ensures Decoded(t) == Some(Normal(f))
  {
    PulsesAre(f);
    var ks := Pulses(f);
    assert Match(t[0], Nominal(f)[0], SAFE_PCT) && Match(t[1], Nominal(f)[1], SAFE_PCT);
    NearPulses(f, t, SAFE_PCT);
    hide Pulses, Nominal, Units, Times, Parsed, Near, PulseNear, Reads;
    PulsesRead(t, ks);
    ParsedExactly(f, t, UNIT);
  }

  lemma {:induction false} PulsesRead(t: Timings, ks: seq<nat>)
    requires |t| == 2 + |ks|
    requires forall i :: 0 <= i < |ks| ==> 1 <= ks[i] <= 3 && PulseNear(t, i, ks[i], SAFE_PCT)
    ensures Reads(t, 2, ks, UNIT, 3)
  {
    hide Match, Times, Units;
    forall i | 0 <= i < |ks|
      ensures Units(t[2 + i], UNIT) == ks[i] && Match(t[2 + i], Times(ks[i], UNIT), TOL_PCT)
    {
      assert PulseNear(t, i, ks[i], SAFE_PCT);
      UnitsInWindow(t[2 + i], ks[i]);
    }
  }

  predicate PulseNear(t: Timings, i: nat, k: nat, pct: nat)
    requires 2 + i < |t|
  {
    Match(t[2 + i], Times(k, UNIT), pct)
  }

  lemma {:induction false} NearPulses(f: Frame, t: Timings, pct: nat)
    requires Near(t, Nominal(f), pct)
    ensures |t| == 2 + |Pulses(f)| && forall i :: 0 <= i < |Pulses(f)| ==> PulseNear(t, i, Pulses(f)[i], pct)
  {
    hide Pulses, Match, Times, Scaled;
    PulsesAre(f);
    var ks := Pulses(f);
    forall i | 0 <= i < |ks|
      ensures PulseNear(t, i, ks[i], pct)
    {
      ScaledAt(ks, UNIT, i);
      assert Match(t[2 + i], Nominal(f)[2 + i], pct);
      assert Nominal(f)[2 + i] == Scaled(ks, UNIT)[i];
    }
  }

  // ---- What this decoder leaves to the others --------------------------------

  /** A SIRC start cannot be an RC6 leader, nominal or scaled. */
  lemma RejectsSirc(t: Timings)
    requires |t| >= 2 && t[0] == 2400 && t[1] == 600
    ensures Decoded(t) == None
  {
  }

  /** Nor can two RC5 durations. */
  lemma RejectsRc5(t: Timings)
    requires |t| >= 2 && t[0] in [889, 1778] && t[1] in [889, 1778]
    ensures Decoded(t) == None
  {
  }

  // ---- The implementation ----------------------------------------------------

  method Encode(f: Frame) returns (err: Err, t: Timings)
    requires f.protocol == Rc6
    ensures err == if Encodable(f) then Ok else InvalidArg
    ensures t == if err == Ok then Nominal(f) else []
  {
    hide Emitted, BitHalves, High, Times, Head;
    if f.address > 0xFF || f.command > 0xFF || f.toggle > 1 {
      return InvalidArg, [];
    }
    AllFits();
    var h := PushHead(f.toggle != 0);
    var data: nat := 0x100 * f.address + f.command;
    h := AppendBits(h, data, 16, true);
    assert h == HalvesOf(f);
    t := [];
    t := Push(t, LEAD_MARK);
    t := Push(t, LEAD_SPACE);
    t := Emit(h, UNIT, t);
    err := Ok;
  }

  lemma AllFits()
    ensures Times(HALVES, UNIT) < 0x1_0000
  {
  }

  method PushHead(first: bool) returns (h: Halves)
    ensures h == Head(first)
  {
    h := [true, false];
    var i := 0;
    while i < 3
      invariant i <= 3
      invariant h == if i == 0 then [true, false] else if i == 1 then [true, false, false, true]
                     else if i == 2 then [true, false, false, true, false, true]
                     else [true, false, false, true, false, true, false, true]
    {
      h := h + [false, true];
      i := i + 1;
    }
    h := h + [first, first, !first, !first];
  }

  method Parse(t: Timings, unit: nat) returns (r: Option<Frame>)
    requires |t| >= 3 && unit > 0
    ensures r == Parsed(t, unit)
  {
    hide Expanded, ReadHalves, FromHigh;
    var g := Expand(t, 2, unit, 3, true, HALVES);
    if g.None? {
      return None;
    }
    var h := g.value;
    if |h| == HALVES - 1 {
      h := h + [false];
    }
    if |h| != HALVES {
      return None;
    }
    assert h == Whole(g.value);
    r := ParseHalves(h);
  }

  lemma {:induction false} HeadIs(h: Halves)
    requires |h| == HALVES
    ensures h[..12] == Head(h[8]) <==>
            && h[0] && !h[1] && !h[2] && h[3] && !h[4] && h[5] && !h[6] && h[7]
            && h[9] == h[8] && h[10] == h[11] && h[10] != h[8]
  {
    var a := h[..12];
    assert a == [a[0], a[1], a[2], a[3], a[4], a[5], a[6], a[7], a[8], a[9], a[10], a[11]];
  }

  method ParseHalves(h: Halves) returns (r: Option<Frame>)
    requires |h| == HALVES
    ensures r == FrameOf(h)
  {
    hide ReadHalves, FromHigh, Head;
    HeadIs(h);
    if !h[0] || h[1] {
      return None;
    }
    var i := 2;
    while i < 8
      invariant i == 2 || i == 4 || i == 6 || i == 8
      invariant forall k :: 2 <= k < i ==> h[k] == (k == 3 || k == 5 || k == 7)
    {
      if h[i] || !h[i + 1] {
        return None;
      }
      i := i + 2;
    }
    if h[8] != h[9] || h[10] != h[11] || h[8] == h[10] {
      return None;
    }
    var ok, data := ReadWord(h, 12, 16, true);
    if !ok {
      return None;
    }
    FromHighBound(ReadHalves(h, 12, 16, true).value);
    Pow2Is16();
    r := Some(Frame(Rc6, data / 0x100, data % 0x100, false, Bit(h[8])));
  }

  method Decode(t: Timings) returns (r: Option<Frame>)
    ensures r == Decoded(t)
  {
    hide Parsed;
    if |t| < 3 {
      return None;
    }
    if Match(t[0], LEAD_MARK, TOL_PCT) && Match(t[1], LEAD_SPACE, TOL_PCT) {
      r := Parse(t, UNIT);
      if r.Some? {
        return;
      }
    }
    var fromMark, fromSpace, unit := t[0] / 6, t[1] / 2, (t[0] + t[1]) / 8;
    var diff := if fromMark > fromSpace then fromMark - fromSpace else fromSpace - fromMark;
    if diff * 10 > unit || !Match(unit, UNIT, TOL_PCT) {
      return None;
    }
    r := Parse(t, unit);
  }
}
