/** Infrared durations and frames (components/stark_ir/ir_timing.c, include/ir_types.h). */
module IrTiming {
  import opened Stark

  const MAX_DURATIONS := 256
  const TOL_FLOOR := 60
  const TOL_PCT := 25

  datatype Protocol = Unknown | Nec | Necx | Rc5 | Rc6 | Sirc12 | Sirc15 | Sirc20

  datatype Frame = Frame(protocol: Protocol, address: uint16, command: uint16, again: bool, toggle: byte)

  const NoFrame := Frame(Unknown, 0, 0, false, 0)

  /** Durations in microseconds, mark first, alternating. */
  type Timings = seq<nat>

  predicate Durations(t: Timings) {
    |t| <= MAX_DURATIONS && forall k :: 0 <= k < |t| ==> 0 < t[k] < 0x1_0000
  }

  function Tolerance(nominal: nat, pct: nat): nat {
    Max(nominal * pct / 100, TOL_FLOOR)
  }

  /** measured lies within nominal +/- max(pct %, 60 us), both ends included. */
  predicate Match(measured: nat, nominal: nat, pct: nat) {
    var tol := Tolerance(nominal, pct);
    nominal - tol <= measured <= nominal + tol
  }

  /** The timings with one more duration; unchanged when full or when us is no duration. */
  function Push(t: Timings, us: nat): (r: Timings)
    ensures Durations(t) ==> Durations(r)
    ensures |t| < MAX_DURATIONS && 0 < us < 0x1_0000 ==> r == t + [us]
  {
    if |t| >= MAX_DURATIONS || us == 0 || us >= 0x1_0000 then t else t + [us]
  }

  /** Every duration within its tolerance window around the nominal one. */
  predicate Near(t: Timings, nominal: Timings, pct: nat) {
    |t| == |nominal| && forall k :: 0 <= k < |t| ==> Match(t[k], nominal[k], pct)
  }

  lemma {:induction false} NearItself(t: Timings, pct: nat)
    ensures Near(t, t, pct)
  {
  }

  lemma {:induction false} NearParts(t: Timings, a: Timings, b: Timings, pct: nat)
    requires Near(t, a + b, pct)
    ensures Near(t[..|a|], a, pct) && Near(t[|a|..], b, pct)
  {
    forall k | 0 <= k < |b|
      ensures Match(t[|a|..][k], b[k], pct)
    {
      assert Match(t[|a| + k], (a + b)[|a| + k], pct);
    }
    forall k | 0 <= k < |a|
      ensures Match(t[..|a|][k], a[k], pct)
    {
      assert Match(t[k], (a + b)[k], pct);
    }
  }
}
