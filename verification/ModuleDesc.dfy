/** The ID EEPROM descriptor (components/stark_module/module_desc.c): its CRC and parser. */
module ModuleDesc {
  import opened Stark

  const DESC_SIZE := 32
  const NAME_MAX := 18
  const NAME_OFFSET := 12
  const CRC_OFFSET := 30

  // ---- CRC-16/CCITT-FALSE, bit by bit ----------------------------------------

  type Bits16 = s: seq<bool> | |s| == 16 witness [false, false, false, false, false, false, false, false, false,
                                                  false, false, false, false, false, false, false]

  /** Where polynomial 0x1021 feeds back, the register's most significant bit being 0. */
  predicate Tap(k: nat) {
    k == 3 || k == 10
  }

  /** The bit-serial register takes in one message bit. */
  function Step(r: Bits16, bit: bool): (s: Bits16)
    ensures forall k :: 0 <= k < 15 ==> s[k] == (r[k + 1] != (Tap(k) && r[0] != bit))
    ensures s[15] == (r[0] != bit)
  {
    var t := r[0] != bit;
    [r[1], r[2], r[3], r[4] != t, r[5], r[6], r[7], r[8],
     r[9], r[10], r[11] != t, r[12], r[13], r[14], r[15], t]
  }

  /** The register after the first n bits of a message. */
  function Register(r: Bits16, bits: seq<bool>, n: nat): Bits16
    requires n <= |bits|
  {
    if n == 0 then r else Step(Register(r, bits, n - 1), bits[n - 1])
  }

  function ByteBits(b: bv8): (s: seq<bool>)
    ensures |s| == 8
  {
    [b & 0x80 != 0, b & 0x40 != 0, b & 0x20 != 0, b & 0x10 != 0,
     b & 0x08 != 0, b & 0x04 != 0, b & 0x02 != 0, b & 0x01 != 0]
  }

  /** A message's bits, each byte's most significant first. */
  function MessageBits(raw: seq<bv8>): (s: seq<bool>)
    ensures |s| == 8 * |raw|
  {
    if raw == [] then [] else MessageBits(raw[..|raw| - 1]) + ByteBits(raw[|raw| - 1])
  }

  const Ones: Bits16 := [true, true, true, true, true, true, true, true, true, true, true, true, true, true, true, true]
  const Zero: Bits16 := [false, false, false, false, false, false, false, false, false, false, false, false, false,
                         false, false, false]

  /** CRC-16/CCITT-FALSE: the register started with all ones. */
  function Crc(raw: seq<bv8>): Bits16 {
    Register(Ones, MessageBits(raw), 8 * |raw|)
  }

  // ---- The firmware's word arithmetic ----------------------------------------

  function WordBits(w: bv16): Bits16 {
    [w & 0x8000 != 0, w & 0x4000 != 0, w & 0x2000 != 0, w & 0x1000 != 0,
     w & 0x0800 != 0, w & 0x0400 != 0, w & 0x0200 != 0, w & 0x0100 != 0,
     w & 0x0080 != 0, w & 0x0040 != 0, w & 0x0020 != 0, w & 0x0010 != 0,
     w & 0x0008 != 0, w & 0x0004 != 0, w & 0x0002 != 0, w & 0x0001 != 0]
  }

  function Low(c: bv32): bv16 {
    (c & 0xFFFF) as bv16
  }

  lemma LowOfShift(c: bv32, l: bv16)
    requires l == Low(c)
    ensures Low(c << 1) == l << 1
    ensures Low((c << 1) ^ 0x1021) == (l << 1) ^ 0x1021
    ensures (c & 0x8000 != 0) == (l & 0x8000 != 0)
  {
  }

  lemma ShiftBits(w: bv16, s: bv16)
    requires s == w << 1
    ensures (s & 0x8000 != 0) == (w & 0x4000 != 0)
    ensures (s & 0x4000 != 0) == (w & 0x2000 != 0)
    ensures (s & 0x2000 != 0) == (w & 0x1000 != 0)
    ensures (s & 0x1000 != 0) == (w & 0x0800 != 0)
    ensures (s & 0x0800 != 0) == (w & 0x0400 != 0)
    ensures (s & 0x0400 != 0) == (w & 0x0200 != 0)
    ensures (s & 0x0200 != 0) == (w & 0x0100 != 0)
    ensures (s & 0x0100 != 0) == (w & 0x0080 != 0)
    ensures (s & 0x0080 != 0) == (w & 0x0040 != 0)
    ensures (s & 0x0040 != 0) == (w & 0x0020 != 0)
    ensures (s & 0x0020 != 0) == (w & 0x0010 != 0)
    ensures (s & 0x0010 != 0) == (w & 0x0008 != 0)
    ensures (s & 0x0008 != 0) == (w & 0x0004 != 0)
    ensures (s & 0x0004 != 0) == (w & 0x0002 != 0)
    ensures (s & 0x0002 != 0) == (w & 0x0001 != 0)
    ensures s & 0x0001 == 0
  {
  }

  lemma XorPoly(w: bv16, x: bv16)
    requires x == w ^ 0x1021
    ensures (x & 0x8000 != 0) == (w & 0x8000 != 0)
    ensures (x & 0x4000 != 0) == (w & 0x4000 != 0)
    ensures (x & 0x2000 != 0) == (w & 0x2000 != 0)
    ensures (x & 0x1000 != 0) == (w & 0x1000 == 0)
    ensures (x & 0x0800 != 0) == (w & 0x0800 != 0)
    ensures (x & 0x0400 != 0) == (w & 0x0400 != 0)
    ensures (x & 0x0200 != 0) == (w & 0x0200 != 0)
    ensures (x & 0x0100 != 0) == (w & 0x0100 != 0)
    ensures (x & 0x0080 != 0) == (w & 0x0080 != 0)
    ensures (x & 0x0040 != 0) == (w & 0x0040 != 0)
    ensures (x & 0x0020 != 0) == (w & 0x0020 == 0)
    ensures (x & 0x0010 != 0) == (w & 0x0010 != 0)
    ensures (x & 0x0008 != 0) == (w & 0x0008 != 0)
    ensures (x & 0x0004 != 0) == (w & 0x0004 != 0)
    ensures (x & 0x0002 != 0) == (w & 0x0002 != 0)
    ensures (x & 0x0001 != 0) == (w & 0x0001 == 0)
  {
  }

  /** x's bits are w's with b's mixed into the top. */
  predicate MixedBits(w: bv16, b: bv8, x: bv16) {
    && ((x & 0x8000 != 0) == ((w & 0x8000 != 0) != (b & 0x80 != 0)))
    && ((x & 0x4000 != 0) == ((w & 0x4000 != 0) != (b & 0x40 != 0)))
    && ((x & 0x2000 != 0) == ((w & 0x2000 != 0) != (b & 0x20 != 0)))
    && ((x & 0x1000 != 0) == ((w & 0x1000 != 0) != (b & 0x10 != 0)))
    && ((x & 0x0800 != 0) == ((w & 0x0800 != 0) != (b & 0x08 != 0)))
    && ((x & 0x0400 != 0) == ((w & 0x0400 != 0) != (b & 0x04 != 0)))
    && ((x & 0x0200 != 0) == ((w & 0x0200 != 0) != (b & 0x02 != 0)))
    && ((x & 0x0100 != 0) == ((w & 0x0100 != 0) != (b & 0x01 != 0)))
    && ((x & 0x0080 != 0) == (w & 0x0080 != 0))
    && ((x & 0x0040 != 0) == (w & 0x0040 != 0))
    && ((x & 0x0020 != 0) == (w & 0x0020 != 0))
    && ((x & 0x0010 != 0) == (w & 0x0010 != 0))
    && ((x & 0x0008 != 0) == (w & 0x0008 != 0))
    && ((x & 0x0004 != 0) == (w & 0x0004 != 0))
    && ((x & 0x0002 != 0) == (w & 0x0002 != 0))
    && ((x & 0x0001 != 0) == (w & 0x0001 != 0))
  }

  lemma XorByte(w: bv16, b: bv8, x: bv16)
    requires x == w ^ ((b as bv16) << 8)
    ensures MixedBits(w, b, x)
  {
  }

  lemma MixedIn(w: bv16, b: bv8)
    ensures Low((w as bv32) ^ ((b as bv32) << 8)) == w ^ ((b as bv16) << 8)
  {
  }

  lemma WordBitsInjective(a: bv16, b: bv16)
    requires WordBits(a) == WordBits(b)
    ensures a == b
  {
  }

  lemma {:induction false} ShiftedWord(w: bv16, s: bv16)
    requires s == w << 1
    ensures WordBits(s) == WordBits(w)[1..] + [false]
  {
    ShiftBits(w, s);
  }

  lemma {:induction false} PolyWord(s: bv16, x: bv16)
    requires x == s ^ 0x1021
    ensures var t := WordBits(s);
            WordBits(x) == [t[0], t[1], t[2], !t[3], t[4], t[5], t[6], t[7],
                            t[8], t[9], !t[10], t[11], t[12], t[13], t[14], !t[15]]
  {
    XorPoly(s, x);
  }

  lemma {:induction false} ZeroStepBits(w: bv16, s: bv16, x: bv16)
    requires s == w << 1 && x == s ^ 0x1021
    ensures WordBits(if w & 0x8000 != 0 then x else s) == Step(WordBits(w), false)
  {
    assert WordBits(w)[0] == (w & 0x8000 != 0);
    hide WordBits;
    ShiftedWord(w, s);
    PolyWord(s, x);
  }

  /** One round of the inner loop is the register taking in a zero bit. */
  lemma {:induction false} RoundIsStep(c: bv32, next: bv32)
    requires next == if c & 0x8000 != 0 then (c << 1) ^ 0x1021 else c << 1
    ensures WordBits(Low(next)) == Step(WordBits(Low(c)), false)
  {
    hide WordBits, Step;
    var l := Low(c);
    LowOfShift(c, l);
    ZeroStepBits(l, l << 1, (l << 1) ^ 0x1021);
  }

  /** A byte's bits mixed into the top of the register. */
  function Mixed(r: Bits16, b: seq<bool>): Bits16
    requires |b| == 8
  {
    [r[0] != b[0], r[1] != b[1], r[2] != b[2], r[3] != b[3], r[4] != b[4], r[5] != b[5], r[6] != b[6], r[7] != b[7],
     r[8], r[9], r[10], r[11], r[12], r[13], r[14], r[15]]
  }

  lemma {:induction false} ByteWord(w: bv16, b: bv8, x: bv16)
    requires MixedBits(w, b, x)
    ensures WordBits(x) == Mixed(WordBits(w), ByteBits(b))
  {
  }

  function ZeroSteps(r: Bits16, n: nat): Bits16 {
    if n == 0 then r else Step(ZeroSteps(r, n - 1), false)
  }

  /** Mixing a byte in and shifting eight times is feeding its bits one by one. */
  lemma {:induction false} ByteAtOnce(r: Bits16, b: seq<bool>, n: nat)
    requires |b| == 8 && n <= 8
    ensures forall k :: 0 <= k < 16 ==>
              ZeroSteps(Mixed(r, b), n)[k] == (Register(r, b, n)[k] != (n + k < 8 && b[n + k]))
    decreases n
  {
    hide Mixed, Step;
    if n == 0 {
      MixedAt(r, b);
    } else {
      ByteAtOnce(r, b, n - 1);
      StepApart(ZeroSteps(Mixed(r, b), n - 1), Register(r, b, n - 1), b, n - 1);
    }
  }

  lemma MixedAt(r: Bits16, b: seq<bool>)
    requires |b| == 8
    ensures forall k :: 0 <= k < 16 ==> Mixed(r, b)[k] == (r[k] != (k < 8 && b[k]))
  {
  }

  /** Registers that differ by the bits still to come, one step on. */
  lemma {:induction false} StepApart(z: Bits16, q: Bits16, b: seq<bool>, n: nat)
    requires |b| == 8 && n < 8 && forall k :: 0 <= k < 16 ==> z[k] == (q[k] != (n + k < 8 && b[n + k]))
    ensures forall k :: 0 <= k < 16 ==>
              Step(z, false)[k] == (Step(q, b[n])[k] != (n + 1 + k < 8 && b[n + 1 + k]))
  {
    assert z[0] == (q[0] != b[n]);
    forall k | 0 <= k < 16
      ensures Step(z, false)[k] == (Step(q, b[n])[k] != (n + 1 + k < 8 && b[n + 1 + k]))
    {
      if k < 15 {
        assert z[k + 1] == (q[k + 1] != (n + 1 + k < 8 && b[n + 1 + k]));
      }
    }
  }

  lemma {:induction false} RegisterPrefix(r: Bits16, a: seq<bool>, b: seq<bool>, n: nat)
    requires n <= |a|
    ensures Register(r, a + b, n) == Register(r, a, n)
    decreases n
  {
    if n > 0 {
      RegisterPrefix(r, a, b, n - 1);
    }
  }

  lemma {:induction false} RegisterAppends(r: Bits16, a: seq<bool>, b: seq<bool>, n: nat)
    requires n <= |b|
    ensures Register(r, a + b, |a| + n) == Register(Register(r, a, |a|), b, n)
    decreases n
  {
    if n == 0 {
      RegisterPrefix(r, a, b, |a|);
    } else {
      RegisterAppends(r, a, b, n - 1);
      assert (a + b)[|a| + n - 1] == b[n - 1];
    }
  }

  lemma {:induction false} CrcOfOneMore(b: seq<bv8>, i: nat)
    requires i < |b|
    ensures Crc(b[..i + 1]) == Register(Crc(b[..i]), ByteBits(b[i]), 8)
  {
    assert b[..i + 1][..i] == b[..i];
    RegisterAppends(Ones, MessageBits(b[..i]), ByteBits(b[i]), 8);
  }

  method MixByte(crc: bv16, b: bv8) returns (next: bv16)
    ensures WordBits(next) == Register(WordBits(crc), ByteBits(b), 8)
  {
    hide WordBits, Register, Step, Low, Mixed, ByteBits, MixedBits;
    var c: bv32 := (crc as bv32) ^ ((b as bv32) << 8);
    MixedIn(crc, b);
    XorByte(crc, b, Low(c));
    ByteWord(crc, b, Low(c));
    ghost var start := WordBits(Low(c));
    var bit := 0;
    while bit < 8
      invariant 0 <= bit <= 8 && WordBits(Low(c)) == ZeroSteps(start, bit)
    {
      ghost var was := c;
      c := if c & 0x8000 != 0 then (c << 1) ^ 0x1021 else c << 1;
      RoundIsStep(was, c);
      bit := bit + 1;
    }
    ByteAtOnce(WordBits(crc), ByteBits(b), 8);
    next := Low(c);
  }

  method Crc16(b: seq<bv8>) returns (crc: bv16)
    ensures WordBits(crc) == Crc(b)
  {
    hide WordBits, Register, ByteBits, Crc;
    crc := 0xFFFF;
    StartsAllOnes();
    var i := 0;
    while i < |b|
      invariant i <= |b| && WordBits(crc) == Crc(b[..i])
    {
      CrcOfOneMore(b, i);
      crc := MixByte(crc, b[i]);
      i := i + 1;
    }
    assert b[..i] == b;
  }

  lemma StartsAllOnes()
    ensures forall b: seq<bv8> :: WordBits(0xFFFF) == Crc(b[..0])
  {
  }

  // ---- What the CRC detects --------------------------------------------------

  /** Where two messages of the same length differ. */
  function Difference(m: seq<bool>, o: seq<bool>): (e: seq<bool>)
    requires |m| == |o|
    ensures |e| == |m| && forall k :: 0 <= k < |m| ==> e[k] == (m[k] != o[k])
  {
    if m == [] then [] else Difference(m[..|m| - 1], o[..|o| - 1]) + [m[|m| - 1] != o[|o| - 1]]
  }

  /** The register is linear: two messages' registers differ by the register of their difference. */
  lemma {:induction false} RegisterIsLinear(r: Bits16, m: seq<bool>, o: seq<bool>, n: nat)
    requires |m| == |o| && n <= |m|
    ensures forall k :: 0 <= k < 16 ==>
              Register(r, o, n)[k] == (Register(r, m, n)[k] != Register(Zero, Difference(m, o), n)[k])
    decreases n
  {
    if n > 0 {
      RegisterIsLinear(r, m, o, n - 1);
    }
  }

  lemma {:induction false} QuietStaysZero(e: seq<bool>, n: nat)
    requires n <= |e| && forall k :: 0 <= k < n ==> !e[k]
    ensures Register(Zero, e, n) == Zero
    decreases n
  {
    if n > 0 {
      QuietStaysZero(e, n - 1);
      assert Step(Zero, false) == Zero;
    }
  }

  /** A register that is not zero does not become zero on zero bits. */
  lemma {:induction false} QuietStaysNonZero(e: seq<bool>, from: nat, n: nat)
    requires from <= n <= |e| && (forall k :: from <= k < n ==> !e[k]) && Register(Zero, e, n) == Zero
    ensures Register(Zero, e, from) == Zero
    decreases n
  {
    if n > from {
      StepBack(Register(Zero, e, n - 1), false);
      QuietStaysNonZero(e, from, n - 1);
    }
  }

  lemma {:induction false} StepBack(r: Bits16, bit: bool)
    ensures !Step(r, bit)[15] ==> r == [bit] + Step(r, bit)[..15]
  {
    if !Step(r, bit)[15] {
      var s := Step(r, bit);
      assert forall k :: 0 <= k < 15 ==> r[k + 1] == s[k];
    }
  }

  /** Bit k of r is bit q + k of the message before `end`, clear beyond it. */
  predicate Shows(r: Bits16, e: seq<bool>, q: nat, end: nat, k: nat)
    requires k < 16 && end <= |e|
  {
    r[k] == (q + k < end && e[q + k])
  }

  /** Run backwards from a zero register, the register before the last bits is those bits. */
  lemma {:induction false} BurstBackwards(e: seq<bool>, q: nat, end: nat)
    requires q <= end <= |e| && end - q <= 16 && Register(Zero, e, end) == Zero
    ensures forall k :: 0 <= k < 16 ==> Shows(Register(Zero, e, q), e, q, end, k)
    decreases end - q
  {
    if q < end {
      BurstBackwards(e, q + 1, end);
      var r, s := Register(Zero, e, q), Register(Zero, e, q + 1);
      assert s == Step(r, e[q]);
      assert Shows(s, e, q + 1, end, 15);
      StepBack(r, e[q]);
      forall k | 0 <= k < 16
        ensures Shows(r, e, q, end, k)
      {
        if k > 0 {
          assert r[k] == s[k - 1];
          assert Shows(s, e, q + 1, end, k - 1);
        }
      }
    }
  }

  /** A non-zero change within sixteen consecutive bits changes the register. */
  lemma {:induction false} BurstShows(e: seq<bool>, p: nat)
    requires p + 16 <= |e| && (forall k :: 0 <= k < |e| && !(p <= k < p + 16) ==> !e[k])
    requires Register(Zero, e, |e|) == Zero
    ensures forall k :: 0 <= k < |e| ==> !e[k]
  {
    QuietStaysNonZero(e, p + 16, |e|);
    BurstBackwards(e, p, p + 16);
    QuietStaysZero(e, p);
    forall k | p <= k < p + 16
      ensures !e[k]
    {
      assert Shows(Zero, e, p, p + 16, k - p);
    }
  }

  lemma ByteBitsInjective(a: bv8, b: bv8)
    requires ByteBits(a) == ByteBits(b)
    ensures a == b
  {
  }

  lemma {:induction false} MessageBitsInjective(a: seq<bv8>, b: seq<bv8>)
    requires |a| == |b| && MessageBits(a) == MessageBits(b)
    ensures a == b
    decreases |a|
  {
    if a != [] {
      var n := |a| - 1;
      assert MessageBits(a)[..8 * n] == MessageBits(a[..n]) && MessageBits(b)[..8 * n] == MessageBits(b[..n]);
      assert MessageBits(a)[8 * n..] == ByteBits(a[n]) && MessageBits(b)[8 * n..] == ByteBits(b[n]);
      MessageBitsInjective(a[..n], b[..n]);
      ByteBitsInjective(a[n], b[n]);
      assert a == a[..n] + [a[n]] && b == b[..n] + [b[n]];
    }
  }

  /** The bits in which two byte strings differ lie within sixteen consecutive ones. */
  predicate WithinBurst(a: seq<bv8>, b: seq<bv8>, p: nat)
    requires |a| == |b|
  {
    p + 16 <= 8 * |a| && forall k :: 0 <= k < 8 * |a| && !(p <= k < p + 16) ==> MessageBits(a)[k] == MessageBits(b)[k]
  }

  /** No burst of up to sixteen bits keeps the checksum. */
  lemma {:induction false} BurstChangesCrc(a: seq<bv8>, b: seq<bv8>, p: nat)
    requires |a| == |b| && WithinBurst(a, b, p) && a != b
    ensures Crc(a) != Crc(b)
  {
    if Crc(a) == Crc(b) {
      var m, o := MessageBits(a), MessageBits(b);
      var e := Difference(m, o);
      RegisterIsLinear(Ones, m, o, |m|);
      assert Register(Zero, e, |e|) == Zero;
      BurstShows(e, p);
      assert forall k :: 0 <= k < |m| ==> m[k] == o[k] by {
        assert forall k :: 0 <= k < |m| ==> !e[k];
      }
      MessageBitsInjective(a, b);
    }
  }

  // ---- Parsing ---------------------------------------------------------------

  datatype Desc = Desc(id: bv16, rev: bv8, caps: CapSet, name: seq<bv8>)
  datatype Reason = Blank | BadMagic | BadVersion | BadCrc | BadField | Truncated
  datatype Outcome = Good(desc: Desc) | Rejected(why: Reason)

  function Word(lo: bv8, hi: bv8): bv16 {
    (lo as bv16) | ((hi as bv16) << 8)
  }

  /** A capability word as the set of its bits, least significant 0; stored little-endian. */
  type CapSet = s: set<nat> | forall i <- s :: i < 32

  function Caps(bytes: seq<bv8>): CapSet
    requires |bytes| == 4
  {
    set i: nat | i < 32 && MessageBits(bytes)[8 * (i / 8) + 7 - i % 8]
  }

  /** 1 to 18 printable bytes, no leading space, then only zeros. */
  predicate NameValid(n: seq<bv8>)
    requires |n| == NAME_MAX
  {
    n[0] != 0x20 && exists len :: 1 <= len <= NAME_MAX && NameOf(n, len)
  }

  predicate NameOf(n: seq<bv8>, len: nat)
    requires len <= |n|
  {
    (forall i :: 0 <= i < len ==> 0x20 <= n[i] <= 0x7E) && forall i :: len <= i < |n| ==> n[i] == 0
  }

  predicate AllOnes(raw: seq<bv8>) {
    forall i :: 0 <= i < |raw| ==> raw[i] == 0xFF
  }

  function ParseDesc(raw: seq<bv8>): Outcome {
    if |raw| < DESC_SIZE then Rejected(Truncated)
    else if AllOnes(raw[..DESC_SIZE]) then Rejected(Blank)
    else if raw[0] != 0x53 || raw[1] != 0x4D then Rejected(BadMagic)
    else if raw[2] != 1 then Rejected(BadVersion)
    else if Crc(raw[..CRC_OFFSET]) != WordBits(Word(raw[30], raw[31])) then Rejected(BadCrc)
    else
      var id := Word(raw[4], raw[5]);
      var name := raw[NAME_OFFSET..NAME_OFFSET + NAME_MAX];
      if raw[3] != 0 || raw[7] != 0 || id == 0 || id == 0xFFFF || !NameValid(name) then Rejected(BadField)
      else Good(Desc(id, raw[6], Caps(raw[8..12]), name))
  }

  method IsBlank(raw: seq<bv8>) returns (blank: bool)
    requires |raw| >= DESC_SIZE
    ensures blank == AllOnes(raw[..DESC_SIZE])
  {
    var i := 0;
    while i < DESC_SIZE
      invariant i <= DESC_SIZE && AllOnes(raw[..i])
    {
      if raw[i] != 0xFF {
        assert raw[..DESC_SIZE][i] != 0xFF;
        return false;
      }
      i := i + 1;
    }
    blank := true;
  }

  method CheckName(n: seq<bv8>) returns (valid: bool)
    requires |n| == NAME_MAX
    ensures valid == NameValid(n)
  {
    var len := 0;
    while len < NAME_MAX && n[len] != 0
      invariant len <= NAME_MAX && forall i :: 0 <= i < len ==> 0x20 <= n[i] <= 0x7E
    {
      if n[len] < 0x20 || n[len] > 0x7E {
        forall l | 1 <= l <= NAME_MAX
          ensures !NameOf(n, l)
        {
          assert if len < l then !(0x20 <= n[len] <= 0x7E) else n[len] != 0;
        }
        return false;
      }
      len := len + 1;
    }
    var i := len;
    while i < NAME_MAX
      invariant len <= i <= NAME_MAX && forall k :: len <= k < i ==> n[k] == 0
    {
      if n[i] != 0 {
        forall l | 1 <= l <= NAME_MAX
          ensures !NameOf(n, l)
        {
          assert if len < l then n[len] == 0 else n[i] != 0;
        }
        return false;
      }
      i := i + 1;
    }
    valid := len > 0 && n[0] != 0x20;
    if len > 0 {
      assert NameOf(n, len);
    }
  }

  method Parse(raw: seq<bv8>) returns (o: Outcome)
    ensures o == ParseDesc(raw)
  {
    hide Crc, WordBits, NameValid, AllOnes, Word, Caps;
    if |raw| < DESC_SIZE {
      return Rejected(Truncated);
    }
    var blank := IsBlank(raw);
    if blank {
      return Rejected(Blank);
    }
    if raw[0] != 0x53 || raw[1] != 0x4D {
      return Rejected(BadMagic);
    }
    if raw[2] != 1 {
      return Rejected(BadVersion);
    }
    var want := Word(raw[30], raw[31]);
    var crc := Crc16(raw[..CRC_OFFSET]);
    if crc != want {
      if WordBits(crc) == WordBits(want) {
        WordBitsInjective(crc, want);
      }
      return Rejected(BadCrc);
    }
    var id := Word(raw[4], raw[5]);
    var name := raw[NAME_OFFSET..NAME_OFFSET + NAME_MAX];
    var valid := CheckName(name);
    if raw[3] != 0 || raw[7] != 0 || id == 0 || id == 0xFFFF || !valid {
      return Rejected(BadField);
    }
    o := Good(Desc(id, raw[6], Caps(raw[8..12]), name));
  }

  const CAP_IR_TX: nat := 0
  const CAP_IR_RX: nat := 1
  const CAP_NFC: nat := 2
  const CAP_MOD_SPI: nat := 3
  const CAP_MOD_IRQ: nat := 4

  /** Not for combinations the hardware cannot have: IR on a slot, or NFC over SPI. */
  predicate CapsSupported(caps: CapSet) {
    CAP_IR_TX !in caps && CAP_IR_RX !in caps && (CAP_NFC !in caps || CAP_MOD_SPI !in caps)
  }

  /** Any non-zero change confined to sixteen consecutive bits of the body of an accepted
      descriptor is rejected. */
  lemma {:induction false} BurstIsRejected(raw: seq<bv8>, other: seq<bv8>, p: nat)
    requires ParseDesc(raw).Good? && |other| == |raw|
    requires other[CRC_OFFSET] == raw[CRC_OFFSET] && other[CRC_OFFSET + 1] == raw[CRC_OFFSET + 1]
    requires other[..CRC_OFFSET] != raw[..CRC_OFFSET] && WithinBurst(raw[..CRC_OFFSET], other[..CRC_OFFSET], p)
    ensures ParseDesc(other).Rejected?
  {
    hide Crc, WordBits;
    BurstChangesCrc(raw[..CRC_OFFSET], other[..CRC_OFFSET], p);
  }
}
