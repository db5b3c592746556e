/** Philips RC5 (components/stark_ir/ir_rc5.c). */
module IrRc5 {
  import opened Stark
  import opened IrTiming
  import opened IrBits
  import opened IrBiphase

  const UNIT := 889
  const BITS := 14

  predicate Encodable(f: Frame) {
    f.protocol == Rc5 && f.address < 0x20 && f.command < 0x80 && f.toggle < 2
  }

  /** Start bit, inverted field bit, toggle, 5 address bits, 6 command bits. */
  function Word(f: Frame): nat {
    0x2000 + (if f.command >= 0x40 then 0 else 0x1000) + 0x800 * f.toggle + 0x40 * f.address + f.command % 0x40
  }

  function HalvesOf(f: Frame): Halves {
    BitHalves(High(Word(f), BITS), false)
  }

  function Nominal(f: Frame): Timings {
    Emitted(HalvesOf(f), UNIT)
  }

  function FrameOf(word: nat): Frame {
    Frame(Rc5, word / 0x40 % 0x20, word % 0x40 + (if word / 0x1000 % 2 == 1 then 0 else 0x40), false, word / 0x800 % 2)
  }

  /** The half-bits with the invisible ones around the received ones put back. */
  function Whole(g: Halves): Halves {
    var h := [false] + g;
    if |h| == 2 * BITS - 1 then h + [false] else h
  }

  function Decoded(t: Timings): Option<Frame> {
    if t == [] then None
    else
      match Expanded(t, 0, |t|, UNIT, 2, true, 2 * BITS)
      case None => None
      case Some(g) =>
        if |Whole(g)| != 2 * BITS then None
        else
          match ReadHalves(Whole(g), 0, BITS, false)
          case None => None
          case Some(b) => Some(FrameOf(FromHigh(b)))
  }

  function Normal(f: Frame): Frame {
    f.(again := false)
  }

  lemma Pow2Is14()
    ensures Pow2(14) == 0x4000
  {
    assert Pow2(7) == 0x80;
  }

  lemma {:induction false} FrameOfWord(f: Frame)
    requires Encodable(f)
    ensures FrameOf(Word(f)) == Normal(f) && 0x2000 <= Word(f) < 0x4000
  {
    var w, low: nat := Word(f), f.command % 0x40;
    var e := if f.command >= 0x40 then 0 else 1;
    assert w == low + 0x40 * (f.address + 0x20 * (f.toggle + 2 * (e + 2)));
    assert w / 0x40 == f.address + 0x20 * (f.toggle + 2 * (e + 2));
    assert w / 0x800 == f.toggle + 2 * (e + 2);
    assert w / 0x1000 == e + 2;
  }

  /** The frame starts with an invisible space and a mark, ends on a mark or on one after it,
      and never stays at one level for three half-bits. */
  lemma {:induction false} HalvesShape(f: Frame)
    requires Encodable(f)
    ensures var h := HalvesOf(f);
            && |h| == 2 * BITS && !h[0] && h[1] && (h[|h| - 1] <==> !h[|h| - 2])
            && RunsWithin(h, 2)
  {
    FrameOfWord(f);
    var b := High(Word(f), BITS);
    TopBit(Word(f), 13);
    BitHalvesAt(b, false, 0);
    BitHalvesAt(b, false, BITS - 1);
    forall p | 0 <= p < 2 * BITS - 2
      ensures Breaks(HalvesOf(f), p, 2)
    {
      NoThree(b, false, p);
    }
  }

  lemma {:induction false} TopBit(w: nat, n: nat)
    requires Pow2(n) <= w
    ensures w < 2 * Pow2(n) ==> High(w, n + 1)[0]
    decreases n
  {
    if n > 0 && w < 2 * Pow2(n) {
      TopBit(w / 2, n - 1);
      assert High(w, n + 1)[0] == High(w / 2, n)[0];
    }
  }

  lemma {:induction false} VisibleShape(f: Frame)
    requires Encodable(f)
    ensures var v := Visible(HalvesOf(f));
            && v != [] && v[0] && |v| < 2 * BITS && Whole(v) == HalvesOf(f) && RunsWithin(v, 2)
  {
    hide HalvesOf, Visible;
    hide RunsWithin;
    HalvesShape(f);
    var h := HalvesOf(f);
    VisibleIs(h, 1);
    RunsWithinPart(h, 1, if h[|h| - 1] then |h| else |h| - 1, 2);
    assert h[1..] == h[1..|h|];
    var v := Visible(h);
    if h[|h| - 1] {
      assert v == h[1..] && [false] + v == h;
    } else {
      assert v == h[1..|h| - 1] && [false] + v + [false] == h;
    }
  }

  /** In its window every duration of one or two units is nearest to its own number. */
  lemma {:induction false} UnitsInWindow(d: nat, k: nat)
    requires 1 <= k <= 2 && Match(d, Times(k, UNIT), TOL_PCT)
    ensures Units(d, UNIT) == k
  {
  }

  lemma {:induction false} HalvesSayFrame(f: Frame)
    requires Encodable(f)
    ensures var b := ReadHalves(HalvesOf(f), 0, BITS, false); b.Some? && FrameOf(FromHigh(b.value)) == Normal(f)
  {
    FrameOfWord(f);
    Pow2Is14();
    var h, b := HalvesOf(f), High(Word(f), BITS);
    assert h == BitHalves(b, false);
    hide Word, FrameOf, HalvesOf, BitHalves, High, FromHigh, ReadHalves, Normal;
    HighIsAll(Word(f), BITS);
    assert h[0..0 + 2 * BITS] == h;
    HalvesReadBack(h, 0, BITS, false, b);
  }

  lemma {:induction false} PulsesRead(f: Frame, t: Timings)
    requires Encodable(f) && Near(t, Nominal(f), TOL_PCT)
    ensures var ks := Runs(Visible(HalvesOf(f))); |t| == |ks| && Reads(t, 0, ks, UNIT, 2)
  {
    VisibleShape(f);
    var v := Visible(HalvesOf(f));
    var ks := Runs(v);
    assert Nominal(f) == Scaled(ks, UNIT);
    RunsAtMost(v, 2);
    hide HalvesOf, Nominal, Scaled, Visible, Runs, Match, Units, Times, RunsWithin, Whole;
    forall i | 0 <= i < |ks|
      ensures 1 <= ks[i] <= 2 && Units(t[0 + i], UNIT) == ks[i] && Match(t[0 + i], Times(ks[i], UNIT), TOL_PCT)
    {
      ScaledAt(ks, UNIT, i);
      assert Match(t[i], Scaled(ks, UNIT)[i], TOL_PCT);
      UnitsInWindow(t[i], ks[i]);
    }
  }

  /** Every frame the encoder accepts is decoded back as long as each duration stays within its
      window. */
  lemma {:induction false} ToleratesJitter(f: Frame, t: Timings)
    requires Encodable(f) && Near(t, Nominal(f), TOL_PCT)
    ensures Decoded(t) == Some(Normal(f))
  {
    hide Encodable, HalvesOf, Nominal, Visible, Runs, FrameOf, FromHigh, ReadHalves, Expanded, Reads, RunsWithin,
         Whole, Near;
    HalvesSayFrame(f);
    VisibleShape(f);
    PulsesRead(f, t);
    VisibleReadsBack(t, 0, Visible(HalvesOf(f)), UNIT, 2, 2 * BITS);
    HalvesLength(f);
  }

  lemma HalvesLength(f: Frame)
    ensures |HalvesOf(f)| == 2 * BITS
  {
  }

  /** The first duration of a frame is one or two units. */
  lemma {:induction false} FirstDuration(f: Frame)
    requires Encodable(f)
    ensures Nominal(f) != [] && Nominal(f)[0] in [UNIT, 2 * UNIT]
    ensures forall k :: 0 <= k < |Nominal(f)| ==> Nominal(f)[k] in [UNIT, 2 * UNIT]
  {
    VisibleShape(f);
    var v := Visible(HalvesOf(f));
    assert Nominal(f) == Scaled(Runs(v), UNIT);
    RunsAtMost(v, 2);
    hide Nominal, Visible, HalvesOf, Runs, RunsWithin, Encodable, Whole, Scaled;
    forall k | 0 <= k < |Nominal(f)|
      ensures Nominal(f)[k] in [UNIT, 2 * UNIT]
    {
      ScaledAt(Runs(v), UNIT, k);
      assert Runs(v)[k] == 1 || Runs(v)[k] == 2;
    }
  }

  // ---- The implementation ----------------------------------------------------

  method Encode(f: Frame) returns (err: Err, t: Timings)
    requires f.protocol == Rc5
    ensures err == if Encodable(f) then Ok else InvalidArg
    ensures t == if err == Ok then Nominal(f) else []
  {
    if f.address > 0x1F || f.command > 0x7F || f.toggle > 1 {
      return InvalidArg, [];
    }
    var field: nat := if f.command >= 0x40 then 0 else 0x1000;
    var word: nat := 0x2000 + field + 0x800 * f.toggle + 0x40 * f.address + f.command % 0x40;
    assert word == Word(f);
    assert Times(2 * BITS, UNIT) < 0x1_0000;
    hide Word, Emitted, BitHalves, High, Times;
    var halves := AppendBits([], word, BITS, false);
    assert [] + BitHalves(High(word, BITS), false) == BitHalves(High(word, BITS), false);
    t := Emit(halves, UNIT, []);
    assert [] + Emitted(halves, UNIT) == Emitted(halves, UNIT);
    err := Ok;
  }

  method Decode(t: Timings) returns (r: Option<Frame>)
    ensures r == Decoded(t)
  {
    hide FrameOf, Expanded, ReadHalves, FromHigh;
    if t == [] {
      return None;
    }
    var g := Expand(t, 0, UNIT, 2, true, 2 * BITS);
    if g.None? {
      return None;
    }
    var h := [false] + g.value;
    if |h| == 2 * BITS - 1 {
      h := h + [false];
    }
    if |h| != 2 * BITS {
      return None;
    }
    var ok, word := ReadWord(h, 0, BITS, false);
    r := if ok then Some(FrameOf(word)) else None;
  }
}
