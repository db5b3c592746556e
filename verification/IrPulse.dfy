/** Bits sent as a fixed gap and a long or short pulse: what NEC and SIRC share. */
module IrPulse {
  import opened Stark
  import opened IrTiming
  import opened IrBits

  /** Each bit as its gap and its pulse. */
  function Pairs(b: seq<bool>, gap: nat, one: nat, zero: nat): (t: Timings)
    ensures |t| == 2 * |b|
  {
    if b == [] then [] else Pairs(b[..|b| - 1], gap, one, zero) + [gap, if b[|b| - 1] then one else zero]
  }

  /** Reads n bits from position `from` on; None as soon as a duration does not match. */
  function ReadPairs(t: Timings, from: nat, n: nat, gap: nat, one: nat, zero: nat): (r: Option<seq<bool>>)
    requires from + 2 * n <= |t|
    ensures r.Some? ==> |r.value| == n
  {
    if n == 0 then Some([])
    else
      var b := ReadPairs(t, from, n - 1, gap, one, zero);
      var g, p := t[from + 2 * n - 2], t[from + 2 * n - 1];
      if b.None? || !Match(g, gap, TOL_PCT) then None
      else if Match(p, one, TOL_PCT) then Some(b.value + [true])
      else if Match(p, zero, TOL_PCT) then Some(b.value + [false])
      else None
  }

  /** No duration matches both pulses. */
  predicate Apart(one: nat, zero: nat) {
    zero + Tolerance(zero, TOL_PCT) < one - Tolerance(one, TOL_PCT)
  }

  /** Reading what was sent, every duration within its window, gives the bits sent. */
  lemma {:induction false} PairsReadBack(t: Timings, from: nat, b: seq<bool>, gap: nat, one: nat, zero: nat)
    requires from + 2 * |b| <= |t| && Apart(one, zero)
    requires Near(t[from..from + 2 * |b|], Pairs(b, gap, one, zero), TOL_PCT)
    ensures ReadPairs(t, from, |b|, gap, one, zero) == Some(b)
    decreases |b|
  {
    hide Match, Near, Apart;
    if b != [] {
      var n := |b| - 1;
      var s := t[from..from + 2 * |b|];
      var last := [gap, if b[n] then one else zero];
      NearParts(s, Pairs(b[..n], gap, one, zero), last, TOL_PCT);
      LastTwo(t, from, n);
      NearTwo(s[2 * n..], last);
      NotBoth(t[from + 2 * n + 1], one, zero);
      PairsReadBack(t, from, b[..n], gap, one, zero);
      assert b == b[..n] + [b[n]];
    }
  }

  lemma LastTwo(t: Timings, from: nat, n: nat)
    requires from + 2 * n + 2 <= |t|
    ensures var s := t[from..from + 2 * n + 2];
            s[..2 * n] == t[from..from + 2 * n] && s[2 * n..] == [t[from + 2 * n], t[from + 2 * n + 1]]
  {
  }

  lemma NearTwo(t: Timings, nominal: Timings)
    requires Near(t, nominal, TOL_PCT) && |t| == 2
    ensures Match(t[0], nominal[0], TOL_PCT) && Match(t[1], nominal[1], TOL_PCT)
  {
  }

  lemma NotBoth(us: nat, one: nat, zero: nat)
    requires Apart(one, zero)
    ensures !(Match(us, one, TOL_PCT) && Match(us, zero, TOL_PCT))
  {
    hide Tolerance;
  }

  lemma {:induction false} PairsOfMore(b: seq<bool>, x: bool, gap: nat, one: nat, zero: nat)
    ensures Pairs(b + [x], gap, one, zero) == Pairs(b, gap, one, zero) + [gap, if x then one else zero]
  {
    assert (b + [x])[..|b|] == b;
  }

  /** Which durations the sent bits are made of. */
  lemma {:induction false} PairsAre(b: seq<bool>, gap: nat, one: nat, zero: nat)
    ensures forall k :: 0 <= k < 2 * |b| ==> Pairs(b, gap, one, zero)[k] in [gap, one, zero]
    decreases |b|
  {
    if b != [] {
      PairsAre(b[..|b| - 1], gap, one, zero);
    }
  }

  /** A pair that does not match fails the whole reading. */
  lemma {:induction false} ReadFails(t: Timings, from: nat, k: nat, n: nat, gap: nat, one: nat, zero: nat)
    requires k < n && from + 2 * n <= |t| && ReadPairs(t, from, k + 1, gap, one, zero) == None
    ensures ReadPairs(t, from, n, gap, one, zero) == None
    decreases n
  {
    if n > k + 1 {
      ReadFails(t, from, k, n - 1, gap, one, zero);
    }
  }

  /** Gap and pulse of bit i match. */
  predicate PairMatches(t: Timings, from: nat, i: nat, gap: nat, one: nat, zero: nat)
    requires from + 2 * i + 1 < |t|
  {
    var g, p := t[from + 2 * i], t[from + 2 * i + 1];
    Match(g, gap, TOL_PCT) && (Match(p, one, TOL_PCT) || Match(p, zero, TOL_PCT))
  }

  /** Reading succeeds exactly when every pair matches. */
  lemma {:induction false} ReadsWhenMatching(t: Timings, from: nat, n: nat, gap: nat, one: nat, zero: nat)
    requires from + 2 * n <= |t|
    ensures ReadPairs(t, from, n, gap, one, zero).Some? <==>
            forall i :: 0 <= i < n ==> PairMatches(t, from, i, gap, one, zero)
    decreases n
  {
    if n > 0 {
      ReadsWhenMatching(t, from, n - 1, gap, one, zero);
      hide Match;
      assert PairMatches(t, from, n - 1, gap, one, zero) <==>
             Match(t[from + 2 * n - 2], gap, TOL_PCT)
             && (Match(t[from + 2 * n - 1], one, TOL_PCT) || Match(t[from + 2 * n - 1], zero, TOL_PCT));
    }
  }

  lemma {:induction false} OneMore(was: Timings, word: nat, i: nat, gap: nat, one: nat, zero: nat)
    ensures Shr(word, i + 1) == Shr(word, i) / 2
    ensures was + Pairs(Low(word, i + 1), gap, one, zero) ==
            was + Pairs(Low(word, i), gap, one, zero) + [gap] + [if Shr(word, i) % 2 == 1 then one else zero]
  {
    hide Pairs, Low, Shr;
    LowOfMore(word, i);
    PairsOfMore(Low(word, i), Shr(word, i) % 2 == 1, gap, one, zero);
  }

  lemma NoPairs(was: Timings, word: nat, gap: nat, one: nat, zero: nat)
    ensures was + Pairs(Low(word, 0), gap, one, zero) == was && Shr(word, 0) == word
  {
  }

  lemma PushTwo(t: Timings, a: nat, b: nat)
    requires |t| + 2 <= MAX_DURATIONS && 0 < a < 0x1_0000 && 0 < b < 0x1_0000
    ensures Push(Push(t, a), b) == t + [a] + [b]
  {
  }

  /** Appends the low n bits of word. */
  method PushBits(was: Timings, word: nat, n: nat, gap: nat, one: nat, zero: nat) returns (t: Timings)
    requires |was| + 2 * n <= MAX_DURATIONS && 0 < gap < 0x1_0000 && 0 < one < 0x1_0000 && 0 < zero < 0x1_0000
    ensures t == was + Pairs(Low(word, n), gap, one, zero)
  {
    hide Pairs, Low, Shr;
    NoPairs(was, word, gap, one, zero);
    t := was;
    var i, rest := 0, word;
    while i < n
      invariant i <= n && rest == Shr(word, i)
      invariant t == was + Pairs(Low(word, i), gap, one, zero)
    {
      OneMore(was, word, i, gap, one, zero);
      PushTwo(t, gap, if rest % 2 == 1 then one else zero);
      hide Push;
      t := Push(t, gap);
      t := Push(t, if rest % 2 == 1 then one else zero);
      rest := rest / 2;
      i := i + 1;
    }
  }

  /** Reads n bits from position `from` on into a word. */
  method ReadBits(t: Timings, from: nat, n: nat, gap: nat, one: nat, zero: nat) returns (ok: bool, word: nat)
    requires from + 2 * n <= |t|
    ensures var b := ReadPairs(t, from, n, gap, one, zero);
            (ok <==> b.Some?) && (ok ==> word == FromLow(b.value))
  {
    hide Match, FromLow;
    FromLowOfNone();
    ok, word := true, 0;
    var i, weight := 0, 1;
    ghost var bits: seq<bool> := [];
    while i < n
      invariant i <= n && ReadPairs(t, from, i, gap, one, zero) == Some(bits)
      invariant word == FromLow(bits) && weight == Pow2(i) && |bits| == i
    {
      var g, p := t[from + 2 * i], t[from + 2 * i + 1];
      if !Match(g, gap, TOL_PCT) || (!Match(p, one, TOL_PCT) && !Match(p, zero, TOL_PCT)) {
        ReadFails(t, from, i, n, gap, one, zero);
        return false, 0;
      }
      FromLowOfMore(bits, Match(p, one, TOL_PCT));
      bits := bits + [Match(p, one, TOL_PCT)];
      if Match(p, one, TOL_PCT) {
        word := word + weight;
      }
      weight := 2 * weight;
      i := i + 1;
    }
  }
}
