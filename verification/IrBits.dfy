/** Numbers as bits, least or most significant first. */
module IrBits {
  import opened Stark

  function Pow2(n: nat): (p: nat)
    ensures p > 0
  {
    if n == 0 then 1 else 2 * Pow2(n - 1)
  }

  /** w >> i. */
  function Shr(w: nat, i: nat): nat {
    if i == 0 then w else Shr(w, i - 1) / 2
  }

  function Bit(b: bool): nat {
    if b then 1 else 0
  }

  // ---- Least significant bit first -------------------------------------------

  /** The low n bits of w. */
  function Low(w: nat, n: nat): (b: seq<bool>)
    ensures |b| == n
  {
    if n == 0 then [] else Low(w, n - 1) + [Shr(w, n - 1) % 2 == 1]
  }

  function FromLow(b: seq<bool>): nat {
    if b == [] then 0 else FromLow(b[..|b| - 1]) + Bit(b[|b| - 1]) * Pow2(|b| - 1)
  }

  lemma {:induction false} FromLowOfMore(b: seq<bool>, x: bool)
    ensures FromLow(b + [x]) == FromLow(b) + (if x then Pow2(|b|) else 0)
  {
    assert (b + [x])[..|b|] == b;
  }

  lemma LowOfMore(w: nat, n: nat)
    ensures Low(w, 0) == [] && Shr(w, 0) == w
    ensures Low(w, n + 1) == Low(w, n) + [Shr(w, n) % 2 == 1] && Shr(w, n + 1) == Shr(w, n) / 2
  {
  }

  /** w is its low n bits and the rest. */
  lemma {:induction false} LowAndRest(w: nat, n: nat)
    ensures w == FromLow(Low(w, n)) + Pow2(n) * Shr(w, n)
    decreases n
  {
    if n > 0 {
      LowAndRest(w, n - 1);
      FromLowOfMore(Low(w, n - 1), Shr(w, n - 1) % 2 == 1);
      Halve(Pow2(n - 1), Shr(w, n - 1));
    }
  }

  lemma {:induction false} Halve(p: nat, s: nat)
    ensures p * s == (if s % 2 == 1 then p else 0) + 2 * p * (s / 2)
  {
    var h := s / 2;
    if s % 2 == 1 {
      assert s == 2 * h + 1;
      assert p * s == p * (2 * h) + p;
    } else {
      assert s == 2 * h;
    }
    assert p * (2 * h) == 2 * p * h;
  }

  lemma {:induction false} ShrIsZero(w: nat, n: nat)
    requires w < Pow2(n)
    ensures Shr(w, n) == 0
  {
    LowAndRest(w, n);
    if Shr(w, n) > 0 {
      Multiple(Pow2(n), Shr(w, n));
    }
  }

  lemma {:induction false} Multiple(p: nat, s: nat)
    requires s > 0
    ensures p * s >= p
  {
    assert p * s == p + p * (s - 1);
  }

  /** A number below 2^n is what its n bits say. */
  lemma {:induction false} LowIsAll(w: nat, n: nat)
    requires w < Pow2(n)
    ensures FromLow(Low(w, n)) == w
  {
    LowAndRest(w, n);
    ShrIsZero(w, n);
  }

  lemma FromLowOfNone()
    ensures FromLow([]) == 0
  {
  }

  lemma {:induction false} FromLowBound(b: seq<bool>)
    ensures FromLow(b) < Pow2(|b|)
    decreases |b|
  {
    if b != [] {
      FromLowBound(b[..|b| - 1]);
    }
  }

  // ---- Most significant bit first --------------------------------------------

  /** The low n bits of w, highest first. */
  function High(w: nat, n: nat): (b: seq<bool>)
    ensures |b| == n
  {
    if n == 0 then [] else High(w / 2, n - 1) + [w % 2 == 1]
  }

  function FromHigh(b: seq<bool>): nat {
    if b == [] then 0 else 2 * FromHigh(b[..|b| - 1]) + Bit(b[|b| - 1])
  }

  lemma {:induction false} FromHighOfMore(b: seq<bool>, x: bool)
    ensures FromHigh(b + [x]) == 2 * FromHigh(b) + Bit(x)
  {
    assert (b + [x])[..|b|] == b;
  }

  lemma FromHighOfNone()
    ensures FromHigh([]) == 0
  {
  }

  lemma {:induction false} HighIsAll(w: nat, n: nat)
    requires w < Pow2(n)
    ensures FromHigh(High(w, n)) == w
    decreases n
  {
    if n > 0 {
      HighIsAll(w / 2, n - 1);
      FromHighOfMore(High(w / 2, n - 1), w % 2 == 1);
    }
  }

  lemma {:induction false} FromHighBound(b: seq<bool>)
    ensures FromHigh(b) < Pow2(|b|)
    decreases |b|
  {
    if b != [] {
      FromHighBound(b[..|b| - 1]);
    }
  }

  lemma {:induction false} HighOfFrom(b: seq<bool>)
    ensures High(FromHigh(b), |b|) == b
    decreases |b|
  {
    if b != [] {
      HighOfFrom(b[..|b| - 1]);
    }
  }
}
