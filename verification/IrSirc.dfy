/** Sony SIRC with 12, 15 or 20 bits (components/stark_ir/ir_sirc.c). */
module IrSirc {
  import opened Stark
  import opened IrTiming
  import opened IrBits
  import opened IrPulse

  const START_MARK := 2400
  const SPACE := 600
  const ONE_MARK := 1200
  const ZERO_MARK := 600

  predicate IsSirc(p: Protocol) {
    p == Sirc12 || p == Sirc15 || p == Sirc20
  }

  function BitsOf(p: Protocol): nat {
    if p == Sirc12 then 12 else if p == Sirc15 then 15 else 20
  }

  function AddressEnd(p: Protocol): nat {
    if p == Sirc12 then 0x20 else if p == Sirc15 then 0x100 else 0x2000
  }

  predicate Encodable(f: Frame) {
    IsSirc(f.protocol) && f.command < 0x80 && f.address < AddressEnd(f.protocol)
  }

  function Word(f: Frame): nat {
    f.command + 0x80 * f.address
  }

  function Nominal(f: Frame): Timings
    requires Encodable(f)
  {
    [START_MARK] + Pairs(Low(Word(f), BitsOf(f.protocol)), SPACE, ONE_MARK, ZERO_MARK)
  }

  /** The variant is the number of bits. */
  function ProtocolOf(n: nat): Option<Protocol> {
    if n == 1 + 2 * 12 then Some(Sirc12)
    else if n == 1 + 2 * 15 then Some(Sirc15)
    else if n == 1 + 2 * 20 then Some(Sirc20)
    else None
  }

  function FrameOf(p: Protocol, word: nat): Frame
    requires word < 0x10_0000
  {
    Frame(p, word / 0x80, word % 0x80, false, 0)
  }

  lemma {:induction false} WordBound(b: seq<bool>)
    requires |b| <= 20
    ensures FromLow(b) < 0x10_0000
  {
    FromLowBound(b);
    Pow2Grows(|b|, 20);
    Pow2Is20();
  }

  lemma Pow2Is20()
    ensures Pow2(12) == 0x1000 && Pow2(15) == 0x8000 && Pow2(20) == 0x10_0000
  {
    assert Pow2(6) == 0x40;
    assert Pow2(18) == 0x4_0000;
  }

  lemma {:induction false} Pow2Grows(a: nat, b: nat)
    requires a <= b
    ensures Pow2(a) <= Pow2(b)
    decreases b
  {
    if a < b {
      Pow2Grows(a, b - 1);
    }
  }

  function Decoded(t: Timings): Option<Frame> {
    match ProtocolOf(|t|)
    case None => None
    case Some(p) =>
      if !Match(t[0], START_MARK, TOL_PCT) then None
      else
        match ReadPairs(t, 1, BitsOf(p), SPACE, ONE_MARK, ZERO_MARK)
        case None => None
        case Some(b) =>
          WordBound(b);
          Some(FrameOf(p, FromLow(b)))
  }

  function Normal(f: Frame): Frame {
    f.(again := false, toggle := 0)
  }

  /** Every frame the encoder accepts is decoded back as long as each duration stays within its
      window. */
  lemma {:induction false} ToleratesJitter(f: Frame, t: Timings)
    requires Encodable(f) && Near(t, Nominal(f), TOL_PCT)
    ensures Decoded(t) == Some(Normal(f))
  {
    hide Low, Pairs, ReadPairs, FromLow, Match, Pow2;
    var n := BitsOf(f.protocol);
    var b := Low(Word(f), n);
    NearParts(t, [START_MARK], Pairs(b, SPACE, ONE_MARK, ZERO_MARK), TOL_PCT);
    assert t[1..] == t[1..1 + 2 * |b|];
    assert Match(t[..1][0], START_MARK, TOL_PCT);
    PulsesApart();
    PairsReadBack(t, 1, b, SPACE, ONE_MARK, ZERO_MARK);
    Pow2Is20();
    assert Word(f) < Pow2(n);
    LowIsAll(Word(f), n);
    WordBound(b);
    WordParts(f.command, f.address);
  }

  lemma PulsesApart()
    ensures Apart(ONE_MARK, ZERO_MARK)
  {
  }

  lemma WordParts(command: nat, address: nat)
    requires command < 0x80
    ensures (command + 0x80 * address) / 0x80 == address && (command + 0x80 * address) % 0x80 == command
  {
  }

  lemma OtherStart(t: Timings)
    requires t == [] || !Match(t[0], START_MARK, TOL_PCT)
    ensures Decoded(t) == None
  {
  }

  // ---- The implementation ----------------------------------------------------

  method Encode(f: Frame) returns (err: Err, t: Timings)
    requires IsSirc(f.protocol)
    ensures err == if Encodable(f) then Ok else InvalidArg
    ensures t == if err == Ok then Nominal(f) else []
  {
    hide Pairs, Low;
    t := [];
    var bits := BitsOf(f.protocol);
    if f.command > 0x7F || f.address > AddressEnd(f.protocol) - 1 {
      return InvalidArg, t;
    }
    var word: nat := f.command + 0x80 * f.address;
    t := Push(t, START_MARK);
    t := PushBits(t, word, bits, SPACE, ONE_MARK, ZERO_MARK);
    err := Ok;
  }

  method Decode(t: Timings) returns (r: Option<Frame>)
    ensures r == Decoded(t)
  {
    hide ReadPairs, FromLow;
    var p := ProtocolOf(|t|);
    if p.None? || !Match(t[0], START_MARK, TOL_PCT) {
      return None;
    }
    var ok, word := ReadBits(t, 1, BitsOf(p.value), SPACE, ONE_MARK, ZERO_MARK);
    if !ok {
      return None;
    }
    WordBound(ReadPairs(t, 1, BitsOf(p.value), SPACE, ONE_MARK, ZERO_MARK).value);
    r := Some(FrameOf(p.value, word));
  }
}
