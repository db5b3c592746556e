/** How far timings may stray before the dispatcher, which tries the decoders in a fixed order,
    takes a frame for another protocol's (components/stark_ir/ir_codec.c). */
module IrTolerance {
  import opened Stark
  import opened IrTiming
  import opened IrCodec
  import IrPulse
  import IrBits
  import IrBiphase
  import IrNec
  import IrRc5
  import IrRc6
  import IrRc6Exact
  import IrSirc

  lemma {:induction false} Wider(t: Timings, nominal: Timings, pct: nat, more: nat)
    requires Near(t, nominal, pct) && pct <= more
    ensures Near(t, nominal, more)
  {
    forall k | 0 <= k < |t|
      ensures Match(t[k], nominal[k], more)
    {
      MulGrows(pct, more, nominal[k]);
    }
  }

  lemma {:induction false} NecRejects(t: Timings)
    requires t != [] && t[0] <= 3332
    ensures IrNec.Decoded(t) == None
  {
    IrNec.OtherLeader(t);
  }

  /** What each decoder accepts names its own protocol. */
  lemma {:induction false} OwnProtocol(t: Timings)
    ensures IrRc6.Decoded(t).Some? ==> IrRc6.Decoded(t).value.protocol == Rc6
    ensures IrSirc.Decoded(t).Some? ==> IrSirc.Decoded(t).value.protocol in [Sirc12, Sirc15, Sirc20]
    ensures IrSirc.Decoded(t).Some? && |t| == 25 ==> IrSirc.Decoded(t).value.protocol == Sirc12
    ensures IrRc5.Decoded(t).Some? ==> IrRc5.Decoded(t).value.protocol == Rc5
  {
    hide IrRc6.Decoded, IrPulse.ReadPairs, IrBits.FromLow, IrBits.FromHigh, IrBiphase.Expanded, IrBiphase.ReadHalves;
    if IrRc6.Decoded(t).Some? {
      Rc6Protocol(t);
    }
  }

  lemma {:induction false} Rc6Protocol(t: Timings)
    requires IrRc6.Decoded(t).Some?
    ensures IrRc6.Decoded(t).value.protocol == Rc6
  {
    hide IrBiphase.Expanded, IrBiphase.ReadHalves, IrBits.FromHigh, IrRc6.Head;
  }

  // ---- NEC -------------------------------------------------------------------

  /** NEC is tried first: the dispatcher keeps its full tolerance. */
  lemma {:induction false} NecTolerates(f: Frame, t: Timings)
    requires IrNec.Encodable(f) && Near(t, IrNec.Nominal(f), TOL_PCT)
    ensures Decoded(t) == Normal(f)
  {
    hide IrNec.Nominal, Near, IrNec.Decoded, IrNec.Normal;
    IrNec.ToleratesJitter(f, t);
  }

  // ---- RC6 -------------------------------------------------------------------

  /** RC6 is tried second, and NEC rejects its leader: the dispatcher decodes a frame back exactly
      when the RC6 decoder does. */
  lemma {:induction false} Rc6TolerantExactly(f: Frame, t: Timings)
    requires IrRc6.Encodable(f) && Near(t, IrRc6.Nominal(f), TOL_PCT)
    ensures |t| == 2 + |IrRc6.Pulses(f)|
    ensures Decoded(t) == Normal(f) <==>
            || IrRc6Exact.AllNearest(t, IrRc6.Pulses(f))
            || (IrRc6Exact.LeaderAgrees(t) && IrBiphase.Reads(t, 2, IrRc6.Pulses(f), IrRc6Exact.LeaderUnit(t), 3)
                && !IrRc6Exact.LooksLikeTwin(f, t))
  {
    IrRc6Exact.NearParts(f, t);
    NecRejects(t);
    SayRc6(f, t);
    hide *;
    IrRc6Exact.FullToleranceExactly(f, t);
  }

  lemma {:induction false} SayRc6(f: Frame, t: Timings)
    requires IrRc6.Encodable(f) && IrNec.Decoded(t) == None
    ensures Encodable(f) && (Decoded(t) == Normal(f) <==> IrRc6.Decoded(t) == Some(IrRc6.Normal(f)))
  {
    hide IrNec.Decoded, IrRc6.Decoded, IrSirc.Decoded, IrRc5.Decoded;
    OwnProtocol(t);
  }

  lemma {:induction false} Rc6Tolerates(f: Frame, t: Timings)
    requires IrRc6.Encodable(f) && Near(t, IrRc6.Nominal(f), IrRc6.SAFE_PCT)
    ensures Decoded(t) == Normal(f)
  {
    hide IrRc6.Nominal, Near, IrRc6.Decoded, IrNec.Decoded;
    Wider(t, IrRc6.Nominal(f), IrRc6.SAFE_PCT, TOL_PCT);
    IrRc6Exact.NearParts(f, t);
    NecRejects(t);
    IrRc6.ToleratesJitter(f, t);
  }

  // ---- RC5 -------------------------------------------------------------------

  /** Every duration within its window is one or two units of RC5, and they are at most 27. */
  predicate LikeRc5(t: Timings) {
    0 < |t| <= 27 && forall k :: 0 <= k < |t| ==> 667 <= t[k] <= 1111 || 1334 <= t[k] <= 2222
  }

  lemma {:induction false} NearRc5(f: Frame, t: Timings)
    requires IrRc5.Encodable(f) && Near(t, IrRc5.Nominal(f), TOL_PCT)
    ensures LikeRc5(t)
  {
    IrRc5.FirstDuration(f);
    IrRc5.VisibleShape(f);
    var v := IrBiphase.Visible(IrRc5.HalvesOf(f));
    assert |IrRc5.Nominal(f)| == |IrBiphase.Runs(v)| <= |v|;
    hide IrRc5.Nominal, IrBiphase.Visible, IrBiphase.Runs, IrRc5.HalvesOf;
    forall k | 0 <= k < |t|
      ensures 667 <= t[k] <= 1111 || 1334 <= t[k] <= 2222
    {
      assert IrRc5.Nominal(f)[k] in [889, 1778];
      assert Match(t[k], IrRc5.Nominal(f)[k], TOL_PCT);
    }
  }

  /** RC6 wants one unit after the leader, and an RC5 duration is more than that by any unit the
      leader could stand for. */
  lemma {:induction false} Rc6RejectsLikeRc5(t: Timings)
    requires LikeRc5(t)
    ensures IrRc6.Decoded(t) == None
  {
    IrRc6Exact.AcceptsExactly(t);
    if |t| >= 3 {
      assert 667 <= t[2] && t[0] <= 2222;
      if IrRc6Exact.LeaderAgrees(t) {
        UnitOfRc5(t[0], t[1], t[2]);
      }
      hide IrRc6.Decoded, LikeRc5, IrRc6Exact.Legible;
      if IrRc6Exact.Legible(t, IrRc6.UNIT) {
        IrRc6Exact.LegibleStart(t, IrRc6.UNIT);
      } else if IrRc6Exact.LeaderAgrees(t) && IrRc6Exact.Legible(t, IrRc6Exact.LeaderUnit(t)) {
        IrRc6Exact.LegibleStart(t, IrRc6Exact.LeaderUnit(t));
      }
    }
  }

  lemma UnitOfRc5(mark: nat, space: nat, next: nat)
    requires mark <= 2222 && 667 <= next
    requires var unit := (mark + space) / 8; unit > 0 && IrRc6.Apart(mark / 6, space / 2) * 10 <= unit
    ensures IrBiphase.Units(next, (mark + space) / 8) != 1
  {
    var unit := (mark + space) / 8;
    assert unit <= 444;
    assert next + unit / 2 >= 2 * unit;
  }

  /** 25 durations that are a SIRC12 frame as well. */
  predicate LooksLikeSirc(t: Timings) {
    && |t| == 25 && t[0] >= 1800
    && forall k :: 1 <= k < 25 ==> t[k] <= 750 || (k % 2 == 0 && 900 <= t[k] <= 1500)
  }

  lemma {:induction false} SircTakesRc5(t: Timings)
    requires LikeRc5(t)
    ensures IrSirc.Decoded(t).Some? <==> LooksLikeSirc(t)
    ensures LooksLikeSirc(t) ==> |t| == 25
  {
    if |t| == 25 {
      IrPulse.ReadsWhenMatching(t, 1, 12, IrSirc.SPACE, IrSirc.ONE_MARK, IrSirc.ZERO_MARK);
      hide IrPulse.ReadPairs, IrBits.FromLow;
      if LooksLikeSirc(t) {
        forall i | 0 <= i < 12
          ensures IrPulse.PairMatches(t, 1, i, IrSirc.SPACE, IrSirc.ONE_MARK, IrSirc.ZERO_MARK)
        {
          assert t[1 + 2 * i] <= 750 && 667 <= t[1 + 2 * i];
          assert 667 <= t[2 + 2 * i];
        }
      }
      if forall i :: 0 <= i < 12 ==> IrPulse.PairMatches(t, 1, i, IrSirc.SPACE, IrSirc.ONE_MARK, IrSirc.ZERO_MARK) {
        forall k | 1 <= k < 25
          ensures t[k] <= 750 || (k % 2 == 0 && 900 <= t[k] <= 1500)
        {
          assert IrPulse.PairMatches(t, 1, (k - 1) / 2, IrSirc.SPACE, IrSirc.ONE_MARK, IrSirc.ZERO_MARK);
        }
      }
    }
  }

  /** Within its tolerance an RC5 frame is decoded back exactly when its durations do not make up
      a SIRC12 frame, which is tried first and then found. */
  lemma {:induction false} Rc5TolerantExactly(f: Frame, t: Timings)
    requires IrRc5.Encodable(f) && Near(t, IrRc5.Nominal(f), TOL_PCT)
    ensures Decoded(t) == Normal(f) <==> !LooksLikeSirc(t)
    ensures LooksLikeSirc(t) ==> Decoded(t).protocol == Sirc12
  {
    NearRc5(f, t);
    Rc6RejectsLikeRc5(t);
    NecRejects(t);
    SircTakesRc5(t);
    IrRc5.ToleratesJitter(f, t);
    SayRc5(f, t);
    hide *;
  }

  lemma {:induction false} SayRc5(f: Frame, t: Timings)
    requires IrRc5.Encodable(f) && IrNec.Decoded(t) == None && IrRc6.Decoded(t) == None
    requires IrRc5.Decoded(t) == Some(IrRc5.Normal(f)) && (IrSirc.Decoded(t).Some? ==> |t| == 25)
    ensures Encodable(f) && (Decoded(t) == Normal(f) <==> IrSirc.Decoded(t) == None)
    ensures IrSirc.Decoded(t).Some? ==> Decoded(t).protocol == Sirc12
  {
    hide IrNec.Decoded, IrRc6.Decoded, IrSirc.Decoded, IrRc5.Decoded;
    OwnProtocol(t);
  }

  const RC5_SAFE_PCT := 15

  lemma {:induction false} Rc5Tolerates(f: Frame, t: Timings)
    requires IrRc5.Encodable(f) && Near(t, IrRc5.Nominal(f), RC5_SAFE_PCT)
    ensures Decoded(t) == Normal(f)
  {
    Wider(t, IrRc5.Nominal(f), RC5_SAFE_PCT, TOL_PCT);
    IrRc5.FirstDuration(f);
    if |t| > 1 {
      assert Match(t[1], IrRc5.Nominal(f)[1], RC5_SAFE_PCT);
      assert IrRc5.Nominal(f)[1] in [889, 1778];
      assert t[1] > 750;
    }
    hide IrRc5.Nominal, Near, Decoded, Normal;
    Rc5TolerantExactly(f, t);
  }

  // ---- SIRC ------------------------------------------------------------------

  /** Every duration within its window. */
  predicate LikeSirc(t: Timings) {
    && |t| >= 25 && |t| % 2 == 1 && 1800 <= t[0] <= 3000
    && forall k :: 1 <= k < |t| ==> 450 <= t[k] <= 750 || (k % 2 == 0 && 900 <= t[k] <= 1500)
  }

  /** RC6 reads timings near a SIRC frame: by the nominal unit or by one the leader agrees on. */
  predicate LooksLikeRc6(t: Timings)
    requires |t| >= 3
  {
    || (t[0] >= 2000 && t[1] >= 667 && IrRc6Exact.Legible(t, IrRc6.UNIT))
    || (IrRc6Exact.LeaderAgrees(t) && IrRc6Exact.Legible(t, IrRc6Exact.LeaderUnit(t)))
  }

  lemma {:induction false} NearSirc(f: Frame, t: Timings, pct: nat)
    requires IrSirc.Encodable(f) && Near(t, IrSirc.Nominal(f), pct)
    ensures |t| >= 25 && |t| % 2 == 1 && Match(t[0], 2400, pct) && Match(t[1], 600, pct)
    ensures forall k :: 1 <= k < |t| ==> Match(t[k], 600, pct) || (k % 2 == 0 && Match(t[k], 1200, pct))
  {
    hide IrSirc.Word, IrBits.Low, IrPulse.Pairs, Match;
    var b := IrBits.Low(IrSirc.Word(f), IrSirc.BitsOf(f.protocol));
    SircDurations(f);
    assert Match(t[0], IrSirc.Nominal(f)[0], pct) && Match(t[1], IrSirc.Nominal(f)[1], pct);
    forall k | 1 <= k < |t|
      ensures Match(t[k], 600, pct) || (k % 2 == 0 && Match(t[k], 1200, pct))
    {
      PairAt(b, k - 1, IrSirc.SPACE, IrSirc.ONE_MARK, IrSirc.ZERO_MARK);
      assert Match(t[k], IrSirc.Nominal(f)[k], pct);
    }
  }

  lemma {:induction false} PairAt(b: seq<bool>, k: nat, gap: nat, one: nat, zero: nat)
    requires k < 2 * |b|
    ensures IrPulse.Pairs(b, gap, one, zero)[k] == if k % 2 == 0 then gap else if b[k / 2] then one else zero
    decreases |b|
  {
    if k < 2 * |b| - 2 {
      PairAt(b[..|b| - 1], k, gap, one, zero);
    }
  }

  lemma {:induction false} Rc6TakesSirc(t: Timings)
    requires LikeSirc(t)
    ensures IrRc6.Decoded(t).Some? <==> LooksLikeRc6(t)
  {
    IrRc6Exact.AcceptsExactly(t);
    assert t[1] <= 750;
    hide IrRc6.Decoded, IrRc6Exact.Legible, LikeSirc;
  }

  /** Within its tolerance a SIRC frame is decoded back exactly when its durations do not make up
      an RC6 frame, which is tried first and then found. */
  lemma {:induction false} SircTolerantExactly(f: Frame, t: Timings)
    requires IrSirc.Encodable(f) && Near(t, IrSirc.Nominal(f), TOL_PCT)
    ensures |t| >= 25 && (Decoded(t) == Normal(f) <==> !LooksLikeRc6(t))
    ensures LooksLikeRc6(t) ==> Decoded(t).protocol == Rc6
  {
    NearSirc(f, t, TOL_PCT);
    assert LikeSirc(t);
    Rc6TakesSirc(t);
    NecRejects(t);
    IrSirc.ToleratesJitter(f, t);
    SaySirc(f, t);
    hide *;
  }

  lemma {:induction false} SaySirc(f: Frame, t: Timings)
    requires IrSirc.Encodable(f) && IrNec.Decoded(t) == None && IrSirc.Decoded(t) == Some(IrSirc.Normal(f))
    ensures Encodable(f) && (Decoded(t) == Normal(f) <==> IrRc6.Decoded(t) == None)
    ensures IrRc6.Decoded(t).Some? ==> Decoded(t) == IrRc6.Decoded(t).value && Decoded(t).protocol == Rc6
  {
    hide IrNec.Decoded, IrRc6.Decoded, IrSirc.Decoded, IrRc5.Decoded;
    OwnProtocol(t);
  }

  const SIRC_SAFE_PCT := 11

  /** Up to 11 % the space after the start is too short for an RC6 leader, and the next mark too
      long for one unit of any other leader. */
  lemma {:induction false} SircTolerates(f: Frame, t: Timings)
    requires IrSirc.Encodable(f) && Near(t, IrSirc.Nominal(f), SIRC_SAFE_PCT)
    ensures Decoded(t) == Normal(f)
  {
    hide IrSirc.Nominal, Near, Decoded, Normal, IrSirc.Encodable;
    hide IrRc6Exact.Legible, IrBiphase.Units;
    Wider(t, IrSirc.Nominal(f), SIRC_SAFE_PCT, TOL_PCT);
    NearSirc(f, t, SIRC_SAFE_PCT);
    assert t[0] <= 2664 && t[1] <= 666 && t[2] >= 534;
    SircTolerantExactly(f, t);
    if IrRc6Exact.LeaderAgrees(t) {
      UnitOfSirc(t[0], t[1], t[2]);
    }
    if LooksLikeRc6(t) {
      IrRc6Exact.LegibleStart(t, IrRc6Exact.LeaderUnit(t));
    }
  }

  lemma UnitOfSirc(mark: nat, space: nat, next: nat)
    requires mark <= 2664 && space <= 666 && next >= 534
    requires IrRc6.Apart(mark / 6, space / 2) * 10 <= (mark + space) / 8
    ensures !Match(next, (mark + space) / 8, TOL_PCT)
  {
    assert (mark + space) / 8 <= 380;
  }

  // ---- All protocols ---------------------------------------------------------

  /** The dispatcher's own tolerance: every frame the encoder accepts is decoded back as long as
      each duration stays within 11 % of its own. */
  lemma {:induction false} Tolerates(f: Frame, t: Timings)
    requires Encodable(f) && Near(t, Nominal(f), SIRC_SAFE_PCT)
    ensures Decoded(t) == Normal(f)
  {
    hide Near, Decoded, Normal, IrNec.Nominal, IrSirc.Nominal, IrRc5.Nominal, IrRc6.Nominal;
    var nominal := Nominal(f);
    Wider(t, nominal, SIRC_SAFE_PCT, RC5_SAFE_PCT);
    Wider(t, nominal, SIRC_SAFE_PCT, TOL_PCT);
    match f.protocol {
      case Nec | Necx => NecTolerates(f, t);
      case Rc5 => Rc5Tolerates(f, t);
      case Rc6 => Rc6Tolerates(f, t);
      case Sirc12 | Sirc15 | Sirc20 => SircTolerates(f, t);
    }
  }

  // ---- No more than that -----------------------------------------------------

  const Mistaken := Frame(Rc5, 0, 0x40, false, 0)

  /** A run of two, then n runs of one. */
  predicate Alternates(h: IrBiphase.Halves) {
    forall k :: 0 <= k < |h| ==> (h[k] <==> k == 0 || k % 2 == 1)
  }

  lemma {:induction false} OnesLevels(n: nat)
    ensures var h := IrBiphase.Levels([2] + Repeated(1, n), true); |h| == n + 2 && Alternates(h)
    decreases n
  {
    if n == 0 {
      assert [2] + Repeated(1, 0) == [] + [2];
      IrBiphase.LevelsOfMore([], 2, true);
      assert IrBiphase.Rep(true, 2) == [true, true];
    } else {
      OnesLevels(n - 1);
      assert [2] + Repeated(1, n) == [2] + Repeated(1, n - 1) + [1];
      IrRc6Exact.LevelParity(n);
      hide IrBiphase.Levels, Repeated, IrBiphase.Level, IrBiphase.Rep;
      IrBiphase.LevelsOfMore([2] + Repeated(1, n - 1), 1, true);
      IrBiphase.RepOne(IrBiphase.Level(true, n));
    }
  }

  function OneThenZeros(n: nat): (b: seq<bool>)
    ensures |b| == n + 1 && forall k :: 0 <= k <= n ==> (b[k] <==> k == 0)
  {
    if n == 0 then [true] else OneThenZeros(n - 1) + [false]
  }

  lemma {:induction false} HighOfPower(n: nat)
    ensures IrBits.High(IrBits.Pow2(n), n + 1) == OneThenZeros(n)
    decreases n
  {
    if n == 0 {
      assert IrBits.High(1, 1) == IrBits.High(0, 0) + [true];
    } else {
      HighOfPower(n - 1);
      var p := IrBits.Pow2(n - 1);
      assert IrBits.Pow2(n) == 2 * p && 2 * p / 2 == p && 2 * p % 2 == 0;
      assert IrBits.High(2 * p, n + 1) == IrBits.High(p, n) + [false];
    }
  }

  lemma {:induction false} MistakenBits()
    ensures IrRc5.HalvesOf(Mistaken) == IrBiphase.BitHalves(OneThenZeros(13), false)
  {
    HighOfPower(13);
    assert IrBits.Pow2(7) == 0x80 && IrBits.Pow2(13) == 0x2000;
    assert IrRc5.Word(Mistaken) == 0x2000;
    hide IrBits.High, IrBits.Pow2, IrBiphase.BitHalves, OneThenZeros, IrRc5.Word;
  }

  lemma {:induction false} MistakenHalves()
    ensures var h := IrRc5.HalvesOf(Mistaken);
            |h| == 28 && !h[0] && forall k :: 1 <= k < 28 ==> (h[k] <==> k == 1 || k % 2 == 0)
  {
    hide IrRc5.HalvesOf, IrBiphase.BitHalves, OneThenZeros;
    MistakenBits();
    var b := OneThenZeros(13);
    forall k | 0 <= k < 28
      ensures IrBiphase.BitHalves(b, false)[k] == if k % 2 == 0 then !b[k / 2] else b[k / 2]
    {
      IrBiphase.BitHalvesAt(b, false, k / 2);
    }
  }

  lemma {:induction false} MistakenVisible()
    ensures IrBiphase.Visible(IrRc5.HalvesOf(Mistaken)) == IrBiphase.Levels([2] + Repeated(1, 24), true)
  {
    hide IrRc5.HalvesOf, IrBiphase.Visible, IrBiphase.Levels, Repeated;
    MistakenHalves();
    OnesLevels(24);
    var h, v := IrRc5.HalvesOf(Mistaken), IrBiphase.Levels([2] + Repeated(1, 24), true);
    IrBiphase.VisibleIs(h, 1);
    assert h[1..27] == v;
  }

  lemma {:induction false} MistakenRuns()
    ensures IrRc5.Nominal(Mistaken) == IrBiphase.Scaled([2] + Repeated(1, 24), 889)
  {
    hide IrBiphase.Scaled, IrBiphase.Levels, IrBiphase.Runs, IrBiphase.Visible, IrRc5.HalvesOf;
    MistakenVisible();
    IrBiphase.RunsOfLevels([2] + Repeated(1, 24), true);
  }

  /** Every bit after the start bit is zero, so all but the first mark last one unit. */
  lemma {:induction false} MistakenNominal()
    ensures IrRc5.Encodable(Mistaken) && |IrRc5.Nominal(Mistaken)| == 25
    ensures IrRc5.Nominal(Mistaken)[0] == 1778
    ensures forall k :: 1 <= k < 25 ==> IrRc5.Nominal(Mistaken)[k] == 889
  {
    hide IrRc5.Nominal, IrBiphase.Scaled;
    MistakenRuns();
    forall k | 0 <= k < 25
      ensures IrBiphase.Scaled([2] + Repeated(1, 24), 889)[k] == if k == 0 then 1778 else 889
    {
      IrBiphase.ScaledAt([2] + Repeated(1, 24), 889, k);
    }
  }

  /** The same timings, each off by less than 16 %. */
  function Jittered(n: nat): (t: Timings)
    ensures |t| == n + 1 && t[0] == 1800 && forall k :: 1 <= k <= n ==> t[k] == 750
  {
    if n == 0 then [1800] else Jittered(n - 1) + [750]
  }

  /** RC5's margin is the largest: at 16 % a frame its own decoder reads can be taken for a
      SIRC12 one. */
  lemma {:induction false} Rc5LooksLikeSirc()
    ensures Near(Jittered(24), IrRc5.Nominal(Mistaken), RC5_SAFE_PCT + 1)
    ensures IrRc5.Decoded(Jittered(24)) == Some(Mistaken)
    ensures Decoded(Jittered(24)) == Frame(Sirc12, 0, 0, false, 0)
  {
    hide Near, Jittered, IrRc5.Nominal, IrSirc.Nominal, IrNec.Decoded, IrRc6.Decoded, IrSirc.Decoded, IrRc5.Decoded;
    var t := Jittered(24);
    MistakenNominal();
    LikeSirc12();
    NearMistaken();
    Wider(t, IrRc5.Nominal(Mistaken), RC5_SAFE_PCT + 1, TOL_PCT);
    NearRc5(Mistaken, t);
    Rc6RejectsLikeRc5(t);
    NecRejects(t);
    IrRc5.ToleratesJitter(Mistaken, t);
    IrSirc.ToleratesJitter(Frame(Sirc12, 0, 0, false, 0), t);
  }

  lemma {:induction false} NearMistaken()
    ensures Near(Jittered(24), IrRc5.Nominal(Mistaken), RC5_SAFE_PCT + 1)
  {
    hide IrRc5.Nominal, Jittered;
    MistakenNominal();
    assert Match(1800, 1778, RC5_SAFE_PCT + 1) && Match(750, 889, RC5_SAFE_PCT + 1);
  }

  lemma {:induction false} LikeSirc12()
    ensures var s := Frame(Sirc12, 0, 0, false, 0);
            IrSirc.Encodable(s) && Near(Jittered(24), IrSirc.Nominal(s), TOL_PCT)
  {
    ZeroPairs(12);
    var s, t := Frame(Sirc12, 0, 0, false, 0), Jittered(24);
    assert IrSirc.Word(s) == 0;
    var body := IrPulse.Pairs(IrBits.Low(0, 12), 600, 1200, 600);
    assert IrSirc.Nominal(s) == [2400] + body;
    hide IrPulse.Pairs, IrBits.Low, IrSirc.Nominal, Jittered;
    assert Match(1800, 2400, TOL_PCT) && Match(750, 600, TOL_PCT);
    forall k | 0 <= k < 25
      ensures Match(t[k], ([2400] + body)[k], TOL_PCT)
    {
    }
  }

  lemma {:induction false} ZeroPairs(n: nat)
    ensures forall k :: 0 <= k < 2 * n ==> IrPulse.Pairs(IrBits.Low(0, n), 600, 1200, 600)[k] == 600
    ensures IrBits.Shr(0, n) == 0
    decreases n
  {
    if n > 0 {
      ZeroPairs(n - 1);
      IrPulse.PairsOfMore(IrBits.Low(0, n - 1), false, 600, 1200, 600);
    }
  }

  // ---- SIRC at 12 % ----------------------------------------------------------

  const Stray := Frame(Sirc20, 0, 16, false, 0)
  const Found := Frame(Rc6, 0xFF, 0xFF, false, 0)

  function Repeated(d: nat, n: nat): (r: seq<nat>)
    ensures |r| == n && forall k :: 0 <= k < n ==> r[k] == d
  {
    if n == 0 then [] else Repeated(d, n - 1) + [d]
  }

  /** Timings within 12 % of the stray frame's. */
  function StrayTimings(): (t: Timings)
    ensures |t| == 41
  {
    [2400, 670, 540, 670, 540, 540, 540, 540, 540, 670, 1200] + Repeated(540, 30)
  }

  lemma {:induction false} OneBit(n: nat)
    requires 5 <= n
    ensures IrBits.Shr(16, n) == 0 && forall i :: 0 <= i < n ==> (IrBits.Low(16, n)[i] <==> i == 4)
    decreases n
  {
    if n == 5 {
      assert IrBits.Shr(16, 1) == 8 && IrBits.Shr(16, 2) == 4;
      assert IrBits.Shr(16, 3) == 2 && IrBits.Shr(16, 4) == 1;
      assert IrBits.Low(16, 3) == [false, false, false];
      assert IrBits.Low(16, 5) == IrBits.Low(16, 3) + [false] + [true];
    } else {
      OneBit(n - 1);
    }
  }

  /** What the stray frame sends at position k, and what was measured there. */
  function SentAt(k: nat): nat {
    if k == 0 then 2400 else if k == 10 then 1200 else 600
  }

  function MeasuredAt(k: nat): nat {
    if k == 0 then 2400 else if k == 10 then 1200 else if k == 1 || k == 3 || k == 9 then 670 else 540
  }

  lemma MeasuredNear(k: nat)
    ensures Match(MeasuredAt(k), SentAt(k), SIRC_SAFE_PCT + 1)
  {
  }

  lemma {:induction false} StraySent()
    ensures IrSirc.Encodable(Stray) && |IrSirc.Nominal(Stray)| == 41
    ensures forall k :: 0 <= k < 41 ==> IrSirc.Nominal(Stray)[k] == SentAt(k)
  {
    hide IrPulse.Pairs, IrBits.Low, IrBits.Shr;
    OneBit(20);
    assert IrSirc.Word(Stray) == 16;
    FromOneBit(IrBits.Low(16, 20));
  }

  lemma {:induction false} FromOneBit(b: seq<bool>)
    requires |b| == 20 && forall i :: 0 <= i < 20 ==> (b[i] <==> i == 4)
    ensures var t := [2400] + IrPulse.Pairs(b, 600, 1200, 600);
            |t| == 41 && forall k :: 0 <= k < 41 ==> t[k] == SentAt(k)
  {
    hide IrPulse.Pairs;
    forall k | 0 < k < 41
      ensures IrPulse.Pairs(b, 600, 1200, 600)[k - 1] == SentAt(k)
    {
      PairAt(b, k - 1, 600, 1200, 600);
    }
  }

  lemma {:induction false} StrayMeasured()
    ensures forall k :: 0 <= k < 41 ==> StrayTimings()[k] == MeasuredAt(k)
  {
    hide Repeated;
  }

  lemma {:induction false} StrayNear()
    ensures IrSirc.Encodable(Stray) && Near(StrayTimings(), IrSirc.Nominal(Stray), SIRC_SAFE_PCT + 1)
  {
    hide StrayTimings, IrSirc.Nominal, MeasuredAt, SentAt, Match;
    StraySent();
    StrayMeasured();
    forall k | 0 <= k < 41
      ensures Match(StrayTimings()[k], IrSirc.Nominal(Stray)[k], SIRC_SAFE_PCT + 1)
    {
      MeasuredNear(k);
    }
  }

  /** Where every level differs from the one before, every run is one long. */
  lemma {:induction false} AlternatingRuns(h: IrBiphase.Halves)
    requires forall k :: 0 < k < |h| ==> h[k] != h[k - 1]
    ensures IrBiphase.Runs(h) == Repeated(1, |h|)
    decreases |h|
  {
    if h != [] {
      AlternatingRuns(h[..|h| - 1]);
    }
  }

  lemma {:induction false} FoundPulses()
    ensures IrRc6.Encodable(Found) && IrRc6.Pulses(Found) == [1, 2, 1, 1, 1, 1, 1, 2, 3] + Repeated(1, 30)
  {
    hide IrRc6.Pulses, IrBiphase.Runs, Repeated, IrRc6Exact.Tail, IrRc6Exact.Joined;
    FoundTail();
    IrRc6Exact.PulsesSplit(Found);
    AlternatingRuns(IrRc6Exact.Tail(Found));
  }

  lemma {:induction false} FoundTail()
    ensures var tail := IrRc6Exact.Tail(Found);
            IrRc6Exact.Joined(Found) && |tail| == 30 && forall k :: 0 < k < 30 ==> tail[k] != tail[k - 1]
  {
    hide IrRc6.HalvesOf, IrRc6Exact.Alternating;
    IrRc6Exact.UniformHalves(Found, true);
    IrRc6Exact.ToggleLevels(Found);
    Switches(IrRc6.HalvesOf(Found));
  }

  lemma {:induction false} Switches(h: IrBiphase.Halves)
    requires |h| == IrRc6.HALVES && IrRc6Exact.Alternating(h, true)
    ensures h[12] && !h[43] && forall k :: 0 < k < 30 ==> h[13..43][k] != h[13..43][k - 1]
  {
    forall k | 0 < k < 30
      ensures h[13..43][k] != h[13..43][k - 1]
    {
      assert h[13..43][k] == h[13 + k] && h[13..43][k - 1] == h[12 + k];
    }
  }

  /** SIRC's margin is the largest, too: at 12 % a frame its own decoder reads can be taken for an
      RC6 one. */
  lemma {:induction false} SircLooksLikeRc6()
    ensures Near(StrayTimings(), IrSirc.Nominal(Stray), SIRC_SAFE_PCT + 1)
    ensures IrSirc.Decoded(StrayTimings()) == Some(Stray)
    ensures Decoded(StrayTimings()) == Found
  {
    var t := StrayTimings();
    StrayNear();
    Wider(t, IrSirc.Nominal(Stray), SIRC_SAFE_PCT + 1, TOL_PCT);
    NecRejects(t);
    FoundFirst();
    hide Near, StrayTimings, IrSirc.Nominal, IrNec.Decoded, IrRc6.Decoded, IrSirc.Decoded, IrRc5.Decoded;
    IrSirc.ToleratesJitter(Stray, t);
  }

  lemma {:induction false} FoundFirst()
    ensures IrRc6.Decoded(StrayTimings()) == Some(Found)
  {
    var t := StrayTimings();
    assert Match(2400, IrRc6.LEAD_MARK, TOL_PCT) && Match(670, IrRc6.LEAD_SPACE, TOL_PCT);
    assert t[0] == 2400 && t[1] == 670;
    FoundReads();
    hide StrayTimings, IrRc6.Decoded, IrRc6.Parsed, IrRc6.Pulses, IrBiphase.Reads, Match;
    IrRc6Exact.DecodedTwice(t);
    IrRc6.ParsedExactly(Found, t, IrRc6.UNIT);
  }

  lemma {:induction false} FoundReads()
    ensures var t, ks := StrayTimings(), IrRc6.Pulses(Found);
            IrRc6.Encodable(Found) && |t| == 2 + |ks| && IrBiphase.Reads(t, 2, ks, IrRc6.UNIT, 3)
  {
    hide IrRc6.Pulses, Repeated, IrBiphase.Units, IrBiphase.Times, Match;
    FoundPulses();
    var t, ks := StrayTimings(), IrRc6.Pulses(Found);
    Reading();
    forall i | 0 <= i < |ks|
      ensures 1 <= ks[i] <= 3 && IrBiphase.Units(t[2 + i], IrRc6.UNIT) == ks[i]
              && Match(t[2 + i], IrBiphase.Times(ks[i], IrRc6.UNIT), TOL_PCT)
    {
      assert i >= 9 ==> t[2 + i] == 540 && ks[i] == 1;
    }
  }

  lemma Reading()
    ensures IrBiphase.Units(540, 444) == 1 && Match(540, IrBiphase.Times(1, 444), TOL_PCT)
    ensures IrBiphase.Units(670, 444) == 2 && Match(670, IrBiphase.Times(2, 444), TOL_PCT)
    ensures IrBiphase.Units(1200, 444) == 3 && Match(1200, IrBiphase.Times(3, 444), TOL_PCT)
  {
  }
}
