/** NEC and NEC-extended (components/stark_ir/ir_nec.c). */
module IrNec {
  import opened Stark
  import opened IrTiming
  import opened IrBits
  import opened IrPulse

  const LEAD_MARK := 9000
  const LEAD_SPACE := 4500
  const REPEAT_SPACE := 2250
  const BIT_MARK := 560
  const ZERO_SPACE := 560
  const ONE_SPACE := 1690
  const FULL_LEN := 67

  predicate IsNec(p: Protocol) {
    p == Nec || p == Necx
  }

  predicate Encodable(f: Frame) {
    IsNec(f.protocol) && (f.again || (f.command < 0x100 && (f.protocol == Nec ==> f.address < 0x100)))
  }

  /** The 32 bits of a frame: address, inverted address, command, inverted command. */
  function Word(f: Frame): nat
    requires Encodable(f) && !f.again
  {
    (if f.protocol == Nec then f.address + 0x100 * (0xFF - f.address) else f.address)
    + 0x1_0000 * f.command + 0x100_0000 * (0xFF - f.command)
  }

  const Repeat: Timings := [LEAD_MARK, REPEAT_SPACE, BIT_MARK]

  function Nominal(f: Frame): Timings
    requires Encodable(f)
  {
    if f.again then Repeat
    else [LEAD_MARK, LEAD_SPACE] + Pairs(Low(Word(f), 32), BIT_MARK, ONE_SPACE, ZERO_SPACE) + [BIT_MARK]
  }

  /** The frame of 32 bits; the command bytes must be complements. */
  function FrameOf(word: nat): Option<Frame> {
    var a, na, c, nc := word % 0x100, word / 0x100 % 0x100, word / 0x1_0000 % 0x100, word / 0x100_0000 % 0x100;
    if c + nc != 0xFF then None
    else if a + na == 0xFF then Some(Frame(Nec, a, c, false, 0))
    else Some(Frame(Necx, a + 0x100 * na, c, false, 0))
  }

  function Decoded(t: Timings): Option<Frame> {
    if |t| == 3 && Match(t[0], LEAD_MARK, TOL_PCT) && Match(t[1], REPEAT_SPACE, TOL_PCT)
      && Match(t[2], BIT_MARK, TOL_PCT)
    then Some(Frame(Nec, 0, 0, true, 0))
    else if |t| != FULL_LEN || !Match(t[0], LEAD_MARK, TOL_PCT) || !Match(t[1], LEAD_SPACE, TOL_PCT)
            || !Match(t[FULL_LEN - 1], BIT_MARK, TOL_PCT) then None
    else
      match ReadPairs(t, 2, 32, BIT_MARK, ONE_SPACE, ZERO_SPACE)
      case Some(b) => FrameOf(FromLow(b))
      case None => None
  }

  /** A frame as decoding can give it back: a repeat says nothing but that, and a 16-bit
      address whose bytes are complements is a plain NEC address. */
  function Normal(f: Frame): Frame
    requires Encodable(f)
  {
    if f.again then Frame(Nec, 0, 0, true, 0)
    else if f.protocol == Necx && f.address % 0x100 + f.address / 0x100 != 0xFF
    then Frame(Necx, f.address, f.command, false, 0)
    else Frame(Nec, f.address % 0x100, f.command, false, 0)
  }

  lemma {:induction false} WordFits(f: Frame)
    requires Encodable(f) && !f.again
    ensures Word(f) < 0x1_0000_0000 == Pow2(32)
  {
    Pow2Is32();
  }

  lemma Pow2Is32()
    ensures Pow2(32) == 0x1_0000_0000
  {
    assert Pow2(8) == 0x100;
    assert Pow2(16) == 0x1_0000;
    assert Pow2(24) == 0x100_0000;
  }

  lemma {:induction false} FrameOfWord(f: Frame)
    requires Encodable(f) && !f.again
    ensures FrameOf(Word(f)) == Some(Normal(f))
  {
    hide FrameOf;
    AddressParts(f.address);
    var a: nat := if f.protocol == Nec then f.address else f.address % 0x100;
    var na: nat := if f.protocol == Nec then 0xFF - f.address else f.address / 0x100;
    var c: nat, nc: nat := f.command, 0xFF - f.command;
    assert Word(f) == a + 0x100 * (na + 0x100 * (c + 0x100 * nc));
    FrameOfBytes(a, na, c, nc);
  }

  lemma AddressParts(n: nat)
    ensures n == n % 0x100 + 0x100 * (n / 0x100) && (n < 0x100 ==> n % 0x100 == n)
    ensures n < 0x1_0000 ==> n / 0x100 < 0x100
  {
  }

  lemma {:induction false} FrameOfBytes(a: nat, na: nat, c: nat, nc: nat)
    requires a < 0x100 && na < 0x100 && c < 0x100 && nc < 0x100
    ensures FrameOf(a + 0x100 * (na + 0x100 * (c + 0x100 * nc)))
         == if c + nc != 0xFF then None
            else if a + na == 0xFF then Some(Frame(Nec, a, c, false, 0))
            else Some(Frame(Necx, a + 0x100 * na, c, false, 0))
  {
    Bytes(a, na, c, nc);
  }

  lemma {:induction false} Bytes(a: nat, na: nat, c: nat, nc: nat)
    requires a < 0x100 && na < 0x100 && c < 0x100 && nc < 0x100
    ensures var w := a + 0x100 * (na + 0x100 * (c + 0x100 * nc));
            w % 0x100 == a && w / 0x100 % 0x100 == na && w / 0x1_0000 % 0x100 == c && w / 0x100_0000 % 0x100 == nc
  {
    var w := a + 0x100 * (na + 0x100 * (c + 0x100 * nc));
    assert w / 0x100 == na + 0x100 * (c + 0x100 * nc);
    assert w / 0x1_0000 == c + 0x100 * nc;
    assert w / 0x100_0000 == nc;
  }

  /** Every frame the encoder accepts is decoded to its normal form as long as each duration
      stays within its window. */
  lemma {:induction false} ToleratesJitter(f: Frame, t: Timings)
    requires Encodable(f) && Near(t, Nominal(f), TOL_PCT)
    ensures Decoded(t) == Some(Normal(f))
  {
    if !f.again {
      var lead := [LEAD_MARK, LEAD_SPACE];
      var b := Low(Word(f), 32);
      var body := Pairs(b, BIT_MARK, ONE_SPACE, ZERO_SPACE);
      assert Nominal(f) == lead + (body + [BIT_MARK]);
      NearParts(t, lead, body + [BIT_MARK], TOL_PCT);
      NearParts(t[2..], body, [BIT_MARK], TOL_PCT);
      assert t[2..][..64] == t[2..2 + 2 * |b|];
      assert Match(t[..2][0], lead[0], TOL_PCT) && Match(t[..2][1], lead[1], TOL_PCT);
      assert Match(t[2..][64..][0], BIT_MARK, TOL_PCT);
      PairsReadBack(t, 2, b, BIT_MARK, ONE_SPACE, ZERO_SPACE);
      WordFits(f);
      LowIsAll(Word(f), 32);
      FrameOfWord(f);
    } else {
      assert Match(t[0], Repeat[0], TOL_PCT) && Match(t[1], Repeat[1], TOL_PCT) && Match(t[2], Repeat[2], TOL_PCT);
    }
  }

  /** Whatever this decoder accepts starts with a NEC leader. */
  lemma OtherLeader(t: Timings)
    requires t == [] || !Match(t[0], LEAD_MARK, TOL_PCT)
    ensures Decoded(t) == None
  {
  }

  // ---- The implementation ----------------------------------------------------

  method Encode(f: Frame) returns (err: Err, t: Timings)
    requires IsNec(f.protocol)
    ensures err == if Encodable(f) then Ok else InvalidArg
    ensures t == if err == Ok then Nominal(f) else []
  {
    hide Low, Pairs;
    t := [];
    if f.again {
      t := Push(t, LEAD_MARK);
      t := Push(t, REPEAT_SPACE);
      t := Push(t, BIT_MARK);
      return Ok, t;
    }
    if f.command > 0xFF || (f.protocol == Nec && f.address > 0xFF) {
      return InvalidArg, t;
    }
    var address: nat := if f.protocol == Nec then f.address + 0x100 * (0xFF - f.address) else f.address;
    var word: nat := address + 0x1_0000 * f.command + 0x100_0000 * (0xFF - f.command);
    assert word == Word(f);
    hide Word;
    t := Push(t, LEAD_MARK);
    t := Push(t, LEAD_SPACE);
    t := PushBits(t, word, 32, BIT_MARK, ONE_SPACE, ZERO_SPACE);
    t := Push(t, BIT_MARK);
    err := Ok;
  }

  method Decode(t: Timings) returns (r: Option<Frame>)
    ensures r == Decoded(t)
  {
    hide FrameOf, ReadPairs, FromLow;
    if |t| == 3 && Match(t[0], LEAD_MARK, TOL_PCT) && Match(t[1], REPEAT_SPACE, TOL_PCT)
      && Match(t[2], BIT_MARK, TOL_PCT) {
      return Some(Frame(Nec, 0, 0, true, 0));
    }
    if |t| != FULL_LEN || !Match(t[0], LEAD_MARK, TOL_PCT) || !Match(t[1], LEAD_SPACE, TOL_PCT)
       || !Match(t[FULL_LEN - 1], BIT_MARK, TOL_PCT) {
      return None;
    }
    var ok, word := ReadBits(t, 2, 32, BIT_MARK, ONE_SPACE, ZERO_SPACE);
    if !ok {
      return None;
    }
    r := FrameOf(word);
  }
}
