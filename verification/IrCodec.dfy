/** All protocols together: the decoders are tried in a fixed order
    (components/stark_ir/ir_codec.c). */
module IrCodec {
  import opened Stark
  import opened IrTiming
  import opened IrSymbols
  import IrPulse
  import IrBits
  import IrBiphase
  import IrNec
  import IrRc5
  import IrRc6
  import IrSirc

  predicate Encodable(f: Frame) {
    match f.protocol
    case Nec | Necx => IrNec.Encodable(f)
    case Rc5 => IrRc5.Encodable(f)
    case Rc6 => IrRc6.Encodable(f)
    case Sirc12 | Sirc15 | Sirc20 => IrSirc.Encodable(f)
    case Unknown => false
  }

  function Nominal(f: Frame): Timings
    requires Encodable(f)
  {
    match f.protocol
    case Nec | Necx => IrNec.Nominal(f)
    case Rc5 => IrRc5.Nominal(f)
    case Rc6 => IrRc6.Nominal(f)
    case Sirc12 | Sirc15 | Sirc20 => IrSirc.Nominal(f)
  }

  function Carrier(p: Protocol): nat {
    match p
    case Nec | Necx => 38000
    case Rc5 | Rc6 => 36000
    case Sirc12 | Sirc15 | Sirc20 => 40000
    case Unknown => 38000
  }

  function Decoded(t: Timings): Frame {
    if IrNec.Decoded(t).Some? then IrNec.Decoded(t).value
    else if IrRc6.Decoded(t).Some? then IrRc6.Decoded(t).value
    else if IrSirc.Decoded(t).Some? then IrSirc.Decoded(t).value
    else if IrRc5.Decoded(t).Some? then IrRc5.Decoded(t).value
    else NoFrame
  }

  /** A frame as it comes back: unused fields zero, a repeat without address and command, and a
      complementary 16-bit NEC address as the plain one. */
  function Normal(f: Frame): Frame
    requires Encodable(f)
  {
    match f.protocol
    case Nec | Necx => IrNec.Normal(f)
    case Rc5 => IrRc5.Normal(f)
    case Rc6 => IrRc6.Normal(f)
    case Sirc12 | Sirc15 | Sirc20 => IrSirc.Normal(f)
  }

  // ---- Nominal timings are durations -----------------------------------------

  lemma {:induction false} NecDurations(f: Frame)
    requires IrNec.Encodable(f)
    ensures Durations(IrNec.Nominal(f))
  {
    if !f.again {
      hide IrNec.Word, IrBits.Low, IrPulse.Pairs;
      var b := IrBits.Low(IrNec.Word(f), 32);
      IrPulse.PairsAre(b, IrNec.BIT_MARK, IrNec.ONE_SPACE, IrNec.ZERO_SPACE);
    }
  }

  lemma {:induction false} SircDurations(f: Frame)
    requires IrSirc.Encodable(f)
    ensures Durations(IrSirc.Nominal(f)) && IrSirc.Nominal(f)[0] == 2400 && |IrSirc.Nominal(f)| >= 25
    ensures IrSirc.Nominal(f)[1] == 600
  {
    hide IrSirc.Word, IrBits.Low;
    var b := IrBits.Low(IrSirc.Word(f), IrSirc.BitsOf(f.protocol));
    IrPulse.PairsAre(b, IrSirc.SPACE, IrSirc.ONE_MARK, IrSirc.ZERO_MARK);
    PairsStart(b, IrSirc.SPACE, IrSirc.ONE_MARK, IrSirc.ZERO_MARK);
  }

  lemma {:induction false} PairsStart(b: seq<bool>, gap: nat, one: nat, zero: nat)
    requires b != []
    ensures IrPulse.Pairs(b, gap, one, zero)[0] == gap
    decreases |b|
  {
    if |b| > 1 {
      PairsStart(b[..|b| - 1], gap, one, zero);
    }
  }

  lemma {:induction false} Rc5Durations(f: Frame)
    requires IrRc5.Encodable(f)
    ensures Durations(IrRc5.Nominal(f)) && IrRc5.Nominal(f) != []
    ensures forall k :: 0 <= k < |IrRc5.Nominal(f)| ==> IrRc5.Nominal(f)[k] in [889, 1778]
  {
    IrRc5.FirstDuration(f);
    IrRc5.VisibleShape(f);
    var v := IrBiphase.Visible(IrRc5.HalvesOf(f));
    assert |IrRc5.Nominal(f)| == |IrBiphase.Runs(v)| <= |v|;
  }

  lemma {:induction false} Rc6Durations(f: Frame)
    requires IrRc6.Encodable(f)
    ensures Durations(IrRc6.Nominal(f)) && IrRc6.Nominal(f)[0] == 2666
  {
    IrRc6.PulsesAre(f);
    IrRc6.VisibleShape(f);
    var ks := IrRc6.Pulses(f);
    assert |ks| <= 44;
    hide IrRc6.Pulses, IrRc6.Nominal, IrBiphase.Scaled, IrBiphase.Visible, IrRc6.HalvesOf;
    forall k | 0 <= k < |ks|
      ensures 0 < IrBiphase.Scaled(ks, IrRc6.UNIT)[k] < 0x1_0000
    {
      IrBiphase.ScaledAt(ks, IrRc6.UNIT, k);
    }
  }

  lemma {:induction false} NominalDurations(f: Frame)
    requires Encodable(f)
    ensures Durations(Nominal(f))
  {
    match f.protocol {
      case Nec | Necx => NecDurations(f);
      case Rc5 => Rc5Durations(f);
      case Rc6 => Rc6Durations(f);
      case Sirc12 | Sirc15 | Sirc20 => SircDurations(f);
    }
  }

  // ---- The fixed order is safe -----------------------------------------------

  /** Every encoded frame is taken by its own decoder: the ones tried before it reject it. */
  lemma {:induction false} DecodesNominal(f: Frame)
    requires Encodable(f)
    ensures Decoded(Nominal(f)) == Normal(f)
  {
    var t := Nominal(f);
    NearItself(t, TOL_PCT);
    hide IrNec.Nominal, IrRc5.Nominal, IrRc6.Nominal, IrSirc.Nominal, IrNec.Decoded, IrRc5.Decoded, IrRc6.Decoded,
         IrSirc.Decoded, Near, IrNec.Normal, Durations;
    match f.protocol {
      case Nec | Necx =>
        IrNec.ToleratesJitter(f, t);
      case Rc6 =>
        Rc6Durations(f);
        IrNec.OtherLeader(t);
        NearItself(t, IrRc6.SAFE_PCT);
        IrRc6.ToleratesJitter(f, t);
      case Sirc12 | Sirc15 | Sirc20 =>
        SircDurations(f);
        IrNec.OtherLeader(t);
        IrRc6.RejectsSirc(t);
        IrSirc.ToleratesJitter(f, t);
      case Rc5 =>
        Rc5Durations(f);
        assert t[0] in [889, 1778];
        IrNec.OtherLeader(t);
        Rc6LeavesRc5(t);
        IrSirc.OtherStart(t);
        IrRc5.ToleratesJitter(f, t);
    }
  }

  lemma {:induction false} Rc6LeavesRc5(t: Timings)
    requires forall k :: 0 <= k < |t| ==> t[k] in [889, 1778]
    ensures IrRc6.Decoded(t) == None
  {
    if |t| >= 2 {
      assert t[0] in [889, 1778] && t[1] in [889, 1778];
      IrRc6.RejectsRc5(t);
    }
  }

  /** Full loopback: every frame the encoder accepts, encoded, packed to symbol words, unpacked
      and decoded, comes back in its normal form. */
  lemma {:induction false} Loopback(f: Frame)
    requires Encodable(f)
    ensures Unpacked(Packed(HalvesOf(Nominal(f)))).Some?
    ensures Decoded(Unpacked(Packed(HalvesOf(Nominal(f)))).value) == Normal(f)
  {
    hide Nominal, Decoded, Normal, Unpacked, Packed, HalvesOf, Encodable;
    NominalDurations(f);
    UnpackThenPack(Nominal(f));
    DecodesNominal(f);
  }

  // ---- The implementation ----------------------------------------------------

  method Encode(f: Frame) returns (err: Err, t: Timings, carrier: Option<nat>)
    ensures err == if Encodable(f) then Ok else InvalidArg
    ensures err == Ok ==> t == Nominal(f) && Durations(t) && Decoded(t) == Normal(f)
    ensures carrier == if f.protocol == Unknown then None else Some(Carrier(f.protocol))
  {
    t, carrier := [], None;
    match f.protocol {
      case Nec | Necx =>
        carrier := Some(38000);
        err, t := IrNec.Encode(f);
      case Rc5 =>
        carrier := Some(36000);
        err, t := IrRc5.Encode(f);
      case Rc6 =>
        carrier := Some(36000);
        err, t := IrRc6.Encode(f);
      case Sirc12 | Sirc15 | Sirc20 =>
        carrier := Some(40000);
        err, t := IrSirc.Encode(f);
      case Unknown =>
        err := InvalidArg;
    }
    if err == Ok {
      NominalDurations(f);
      DecodesNominal(f);
    }
  }

  method Decode(t: Timings) returns (f: Frame)
    ensures f == Decoded(t)
  {
    hide IrNec.Decoded, IrRc5.Decoded, IrRc6.Decoded, IrSirc.Decoded;
    f := NoFrame;
    var r := IrNec.Decode(t);
    if r.None? {
      r := IrRc6.Decode(t);
    }
    if r.None? {
      r := IrSirc.Decode(t);
    }
    if r.None? {
      r := IrRc5.Decode(t);
    }
    if r.Some? {
      f := r.value;
    }
  }
}
