/** Type 2 tag memory: the capability container, the TLV walk and the padded NDEF TLV
    the writer builds (components/stark_nfc/nfc_type2.c). */
module NfcType2 {
  import opened Stark

  const TLV_NULL: byte := 0x00
  const TLV_NDEF: byte := 0x03
  const TLV_END: byte := 0xFE
  const TLV_LONG: byte := 0xFF
  const NDEF_MAX := 872

  function Be16(hi: byte, lo: byte): nat {
    hi as nat * 0x100 + lo as nat
  }

  datatype Cc = Cc(valid: bool, writable: bool, dataBytes: nat)

  /** Magic E1, version 1.x, a size, read access granted. */
  function ParseCc(cc: seq<byte>): Cc
    requires |cc| >= 4
  {
    var valid := cc[0] == 0xE1 && 0x10 <= cc[1] < 0x20 && cc[2] != 0 && cc[3] < 0x10;
    if valid then Cc(true, cc[3] == 0, cc[2] as nat * 8) else Cc(false, false, 0)
  }

  function NdefCapacity(dataBytes: nat): nat {
    if dataBytes < 3 then 0
    else if dataBytes - 3 < 0xFF then dataBytes - 3
    else dataBytes - 5
  }

  // ---- The TLV walk ----------------------------------------------------------

  datatype Tlv = Found(off: nat, len: nat) | NoTlv | More(need: nat) | Bad

  datatype Step = Stop(answer: Tlv) | Skip(next: nat)

  /** What the block at pos does to the walk: settle it, or be stepped over. */
  function BlockAt(area: seq<byte>, total: nat, pos: nat): (s: Step)
    requires pos < total
    ensures s.Skip? ==> pos < s.next <= total
  {
    if pos >= |area| then Stop(More(pos + 1))
    else if area[pos] == TLV_NULL then Skip(pos + 1)
    else if area[pos] == TLV_END then Stop(NoTlv)
    else if pos + 2 > total then Stop(Bad)
    else if pos + 2 > |area| then Stop(More(pos + 2))
    else if area[pos + 1] == TLV_LONG && pos + 4 > total then Stop(Bad)
    else if area[pos + 1] == TLV_LONG && pos + 4 > |area| then Stop(More(pos + 4))
    else
      var hdr := if area[pos + 1] == TLV_LONG then 4 else 2;
      var value := if area[pos + 1] == TLV_LONG then Be16(area[pos + 2], area[pos + 3]) else area[pos + 1];
      if pos + hdr + value > total then Stop(Bad)
      else if area[pos] == TLV_NDEF then Stop(Found(pos + hdr, value))
      else Skip(pos + hdr + value)
  }

  /** The walk from pos over a data area of `total` bytes of which `area` holds the first |area|. */
  function Walk(area: seq<byte>, total: nat, pos: nat): Tlv
    decreases if pos < total then total - pos else 0
  {
    if pos >= total then NoTlv
    else
      match BlockAt(area, total, pos)
      case Stop(answer) => answer
      case Skip(next) => Walk(area, total, next)
  }

  method FindTlv(area: array<byte>, avail: nat, total: nat) returns (r: Tlv)
    requires avail <= area.Length
    ensures r == Walk(area[..avail], total, 0)
  {
    ghost var seen := area[..avail];
    var pos := 0;
    while pos < total
      invariant pos <= total
      invariant Walk(seen, total, pos) == Walk(seen, total, 0)
      decreases total - pos
    {
      if pos >= avail {
        return More(pos + 1);
      }
      var kind := area[pos];
      if kind == TLV_NULL {
        pos := pos + 1;
        continue;
      }
      if kind == TLV_END {
        return NoTlv;
      }
      var hdr := 2;
      if pos + hdr > total {
        return Bad;
      }
      if pos + hdr > avail {
        return More(pos + hdr);
      }
      var value: nat := area[pos + 1];
      if value == TLV_LONG {
        hdr := 4;
        if pos + hdr > total {
          return Bad;
        }
        if pos + hdr > avail {
          return More(pos + hdr);
        }
        value := Be16(area[pos + 2], area[pos + 3]);
      }
      if pos + hdr + value > total {
        return Bad;
      }
      if kind == TLV_NDEF {
        return Found(pos + hdr, value);
      }
      pos := pos + hdr + value;
    }
    r := NoTlv;
  }

  /** The lazy walk refines the whole-area walk: on a prefix it either answers as the full
      area would, or asks for more bytes than it has and no more than there are. */
  lemma {:induction false} LazyWalkRefines(area: seq<byte>, full: seq<byte>, pos: nat)
    requires area <= full
    ensures var r := Walk(area, |full|, pos);
            if r.More? then |area| < r.need <= |full| else r == Walk(full, |full|, pos)
    decreases if pos < |full| then |full| - pos else 0
  {
    if pos < |full| && BlockAt(area, |full|, pos).Skip? {
      LazyWalkRefines(area, full, BlockAt(area, |full|, pos).next);
    }
  }

  // ---- What the walk means: a list of blocks ---------------------------------

  /** A block the walk steps over: a NULL byte, or a type with a one- or three-byte length. */
  datatype Block = Null | Short(kind: byte, value: seq<byte>) | Long(kind: byte, hi: byte, lo: byte, value: seq<byte>)

  predicate Skipped(b: Block) {
    match b
    case Null => true
    case Short(kind, value) => kind !in {TLV_NULL, TLV_NDEF, TLV_END} && |value| < 0xFF
    case Long(kind, hi, lo, value) => kind !in {TLV_NULL, TLV_NDEF, TLV_END} && |value| == Be16(hi, lo)
  }

  function BlockBytes(b: Block): seq<byte>
    requires Skipped(b)
  {
    match b
    case Null => [TLV_NULL]
    case Short(kind, value) => [kind, |value|] + value
    case Long(kind, hi, lo, value) => [kind, TLV_LONG, hi, lo] + value
  }

  function BlocksBytes(bs: seq<Block>): seq<byte>
    requires forall b <- bs :: Skipped(b)
  {
    if bs == [] then [] else BlockBytes(bs[0]) + BlocksBytes(bs[1..])
  }

  /** The answer the block starting at `tail` settles, None when that block is stepped over.
      `at` is its offset in the data area. */
  function Verdict(tail: seq<byte>, at: nat): Option<Tlv> {
    if tail == [] || tail[0] == TLV_END then Some(NoTlv)
    else if tail[0] == TLV_NULL then None
    else if |tail| < 2 || (tail[1] == TLV_LONG && |tail| < 4) then Some(Bad)
    else
      var hdr := if tail[1] == TLV_LONG then 4 else 2;
      var len := if tail[1] == TLV_LONG then Be16(tail[2], tail[3]) else tail[1];
      if hdr + len > |tail| then Some(Bad)
      else if tail[0] == TLV_NDEF then Some(Found(at + hdr, len))
      else None
  }

  /** `full` is the blocks bs, then a tail whose first block (or end) settles the answer as r. */
  ghost predicate Layout(full: seq<byte>, bs: seq<Block>, tail: seq<byte>, r: Tlv) {
    && LaidOut(full, 0, bs, tail)
    && Verdict(tail, |full| - |tail|) == Some(r)
  }

  lemma {:induction false} BlockStepsOver(full: seq<byte>, pos: nat, b: Block)
    requires Skipped(b) && pos + |BlockBytes(b)| <= |full|
    requires full[pos..pos + |BlockBytes(b)|] == BlockBytes(b)
    ensures BlockAt(full, |full|, pos) == Skip(pos + |BlockBytes(b)|)
  {
    var enc := full[pos..pos + |BlockBytes(b)|];
    assert full[pos] == enc[0];
    if !b.Null? {
      assert full[pos + 1] == enc[1];
    }
    if b.Long? {
      assert full[pos + 2] == enc[2] && full[pos + 3] == enc[3];
    }
  }

  lemma {:induction false} WalkStepsOver(full: seq<byte>, pos: nat, b: Block, next: nat)
    requires Skipped(b) && next == pos + |BlockBytes(b)| <= |full|
    requires full[pos..next] == BlockBytes(b)
    ensures Walk(full, |full|, pos) == Walk(full, |full|, next)
  {
    BlockStepsOver(full, pos, b);
  }

  lemma {:induction false} WalkSettles(full: seq<byte>, pos: nat)
    requires pos <= |full| && Verdict(full[pos..], pos).Some?
    ensures Walk(full, |full|, pos) == Verdict(full[pos..], pos).value
  {
    var tail := full[pos..];
    assert forall i :: 0 <= i < |tail| ==> full[pos + i] == tail[i];
    if pos < |full| {
      assert full[pos] == tail[0];
    }
  }

  /** The block an unsettled tail starts with. */
  lemma {:induction false} FirstBlock(full: seq<byte>, pos: nat) returns (b: Block)
    requires pos <= |full| && Verdict(full[pos..], pos) == None
    ensures Skipped(b) && 0 < |BlockBytes(b)| <= |full| - pos
    ensures full[pos..pos + |BlockBytes(b)|] == BlockBytes(b)
  {
    var tail := full[pos..];
    if tail[0] == TLV_NULL {
      b := Null;
    } else {
      var hdr := if tail[1] == TLV_LONG then 4 else 2;
      var len := if tail[1] == TLV_LONG then Be16(tail[2], tail[3]) else tail[1];
      var value := tail[hdr..hdr + len];
      b := if tail[1] == TLV_LONG then Long(tail[0], tail[2], tail[3], value) else Short(tail[0], value);
      assert BlockBytes(b) == tail[..hdr] + value == tail[..hdr + len];
    }
    assert full[pos..pos + |BlockBytes(b)|] == tail[..|BlockBytes(b)|];
  }

  /** From pos on, `full` is the blocks bs and a tail that settles the walk's answer. */
  ghost predicate LaidOut(full: seq<byte>, pos: nat, bs: seq<Block>, tail: seq<byte>) {
    && pos <= |full|
    && (forall b <- bs :: Skipped(b))
    && full[pos..] == BlocksBytes(bs) + tail
  }

  lemma {:induction false} BlocksCons(b: Block, cs: seq<Block>, tail: seq<byte>)
    requires Skipped(b) && forall c <- cs :: Skipped(c)
    ensures forall c <- [b] + cs :: Skipped(c)
    ensures BlocksBytes([b] + cs) + tail == BlockBytes(b) + (BlocksBytes(cs) + tail)
  {
    assert ([b] + cs)[1..] == cs;
  }

  lemma {:induction false} PrependBlock(full: seq<byte>, pos: nat, b: Block, cs: seq<Block>, tail: seq<byte>)
    requires Skipped(b) && pos + |BlockBytes(b)| <= |full|
    requires full[pos..pos + |BlockBytes(b)|] == BlockBytes(b)
    requires LaidOut(full, pos + |BlockBytes(b)|, cs, tail)
    ensures LaidOut(full, pos, [b] + cs, tail)
  {
    BlocksCons(b, cs, tail);
    assert full[pos..] == full[pos..pos + |BlockBytes(b)|] + full[pos + |BlockBytes(b)|..];
  }

  lemma {:induction false} DropBlock(full: seq<byte>, pos: nat, b: Block, cs: seq<Block>, tail: seq<byte>)
    requires LaidOut(full, pos, [b] + cs, tail)
    ensures Skipped(b) && pos + |BlockBytes(b)| <= |full|
    ensures full[pos..pos + |BlockBytes(b)|] == BlockBytes(b)
    ensures LaidOut(full, pos + |BlockBytes(b)|, cs, tail)
  {
    assert b == ([b] + cs)[0];
    assert forall c <- cs :: c in [b] + cs;
    BlocksCons(b, cs, tail);
    var rest := BlocksBytes(cs) + tail;
    assert full[pos..] == BlockBytes(b) + rest;
    assert full[pos..pos + |BlockBytes(b)|] == full[pos..][..|BlockBytes(b)|];
    assert full[pos + |BlockBytes(b)|..] == full[pos..][|BlockBytes(b)|..] == rest;
  }

  lemma NoBlocks(full: seq<byte>, pos: nat)
    requires pos <= |full|
    ensures LaidOut(full, pos, [], full[pos..])
  {
  }

  lemma {:induction false} WalkHasLayout(full: seq<byte>, pos: nat) returns (bs: seq<Block>, tail: seq<byte>)
    requires pos <= |full|
    ensures LaidOut(full, pos, bs, tail)
    ensures Verdict(tail, |full| - |tail|) == Some(Walk(full, |full|, pos))
    decreases |full| - pos
  {
    hide Verdict, Walk, LaidOut, BlockBytes, Skipped;
    if Verdict(full[pos..], pos).Some? {
      WalkSettles(full, pos);
      NoBlocks(full, pos);
      bs, tail := [], full[pos..];
      assert pos == |full| - |tail|;
    } else {
      var b := FirstBlock(full, pos);
      var next := pos + |BlockBytes(b)|;
      WalkStepsOver(full, pos, b, next);
      var cs;
      cs, tail := WalkHasLayout(full, next);
      PrependBlock(full, pos, b, cs, tail);
      bs := [b] + cs;
    }
  }

  lemma {:induction false} LayoutDecidesWalk(full: seq<byte>, pos: nat, bs: seq<Block>, tail: seq<byte>, r: Tlv)
    requires LaidOut(full, pos, bs, tail)
    requires Verdict(tail, |full| - |tail|) == Some(r)
    ensures Walk(full, |full|, pos) == r
    decreases |bs|
  {
    if bs == [] {
      assert full[pos..] == tail;
      assert pos == |full| - |tail|;
      WalkSettles(full, pos);
    } else {
      var b, cs := bs[0], bs[1..];
      assert bs == [b] + cs;
      DropBlock(full, pos, b, cs, tail);
      var next := pos + |BlockBytes(b)|;
      WalkStepsOver(full, pos, b, next);
      LayoutDecidesWalk(full, next, cs, tail, r);
    }
  }

  /** The walk over the whole area answers r exactly when the area is a list of steppable
      blocks followed by one that settles r. */
  lemma {:induction false} WalkIffLayout(full: seq<byte>, r: Tlv)
    ensures Walk(full, |full|, 0) == r <==> exists bs, tail :: Layout(full, bs, tail, r)
  {
    assert full[0..] == full;
    if Walk(full, |full|, 0) == r {
      var bs, tail := WalkHasLayout(full, 0);
      assert Layout(full, bs, tail, r);
    }
    if bs, tail :| Layout(full, bs, tail, r) {
      LayoutDecidesWalk(full, 0, bs, tail, r);
    }
  }

  // ---- The TLV the writer stores ---------------------------------------------

  /** Bytes of the padded TLV for a message of len bytes, 0 when it is too long. */
  function TlvSize(len: nat): nat {
    if len > 0xFFFE then 0
    else
      var used := (if len < TLV_LONG then 2 else 4) + len + 1;
      (used + 3) / 4 * 4
  }

  /** Byte i of the padded TLV, computed on the fly. */
  function TlvByte(msg: seq<byte>, i: nat): byte
    requires |msg| <= 0xFFFE
  {
    var hdr := if |msg| < TLV_LONG then 2 else 4;
    if i == 0 then TLV_NDEF
    else if i < hdr then
      if hdr == 2 then |msg|
      else if i == 1 then TLV_LONG
      else if i == 2 then |msg| / 256 else |msg| % 256
    else if i < hdr + |msg| then msg[i - hdr]
    else if i == hdr + |msg| then TLV_END else 0
  }

  method TlvPage(msg: seq<byte>, page: nat, out: array<byte>, at: nat)
    requires |msg| <= 0xFFFE && at + 4 <= out.Length
    modifies out
    ensures forall k :: at <= k < at + 4 ==> out[k] == TlvByte(msg, page * 4 + (k - at))
    ensures forall k :: 0 <= k < out.Length && !(at <= k < at + 4) ==> out[k] == old(out[k])
  {
    var k := 0;
    while k < 4
      invariant 0 <= k <= 4
      invariant forall j :: at <= j < at + k ==> out[j] == TlvByte(msg, page * 4 + (j - at))
      invariant forall j :: 0 <= j < out.Length && !(at <= j < at + k) ==> out[j] == old(out[j])
    {
      out[at + k] := TlvByte(msg, page * 4 + k);
      k := k + 1;
    }
  }

  function ImageHeader(len: nat): seq<byte>
    requires len <= 0xFFFE
  {
    if len < 0xFF then [TLV_NDEF, len] else [TLV_NDEF, TLV_LONG, len / 256, len % 256]
  }

  /** The stored image: header, message, terminator, zero padding to whole pages. */
  function TlvBytes(msg: seq<byte>): seq<byte>
    requires |msg| <= 0xFFFE
  {
    var head := ImageHeader(|msg|) + msg + [TLV_END];
    head + seq(TlvSize(|msg|) - |head|, _ => 0)
  }

  lemma {:induction false} TlvByteIsImage(msg: seq<byte>)
    requires |msg| <= 0xFFFE
    ensures |TlvBytes(msg)| == TlvSize(|msg|)
    ensures forall i :: 0 <= i < TlvSize(|msg|) ==> TlvByte(msg, i) == TlvBytes(msg)[i]
  {
    var h := ImageHeader(|msg|);
    var head := h + msg + [TLV_END];
    forall i | 0 <= i < TlvSize(|msg|)
      ensures TlvByte(msg, i) == TlvBytes(msg)[i]
    {
      if i < |head| {
        assert TlvBytes(msg)[i] == head[i];
        if |h| <= i < |h| + |msg| {
          assert head[i] == msg[i - |h|];
        }
      }
    }
  }

  /** An area that starts with the stored image of msg is walked to exactly msg. */
  lemma {:induction false} ImageIsFound(msg: seq<byte>, full: seq<byte>)
    requires |msg| <= 0xFFFE && TlvBytes(msg) <= full
    ensures Walk(full, |full|, 0).Found?
    ensures var r := Walk(full, |full|, 0); r.off + r.len <= |full| && full[r.off..r.off + r.len] == msg
  {
    TlvByteIsImage(msg);
    var image := TlvBytes(msg);
    var hdr := if |msg| < 0xFF then 2 else 4;
    forall i | 0 <= i < |image|
      ensures full[i] == TlvByte(msg, i)
    {
      assert full[i] == image[i];
    }
    assert full[0] == TLV_NDEF;
    assert full[1] == TlvByte(msg, 1);
    if hdr == 4 {
      assert full[2] == TlvByte(msg, 2) && full[3] == TlvByte(msg, 3);
    }
    assert Walk(full, |full|, 0) == Found(hdr, |msg|);
    forall i | 0 <= i < |msg|
      ensures full[hdr..hdr + |msg|][i] == msg[i]
    {
      assert full[hdr + i] == TlvByte(msg, hdr + i);
    }
  }

  /** What the reader reports as the tag's capacity is exactly what the writer accepts; a CC
      always declares a multiple of eight bytes. */
  lemma CapacityIsWhatFits(dataBytes: nat, len: nat)
    requires dataBytes % 8 == 0 && 0 < dataBytes <= 0xFF * 8
    ensures 0 < TlvSize(len) <= dataBytes <==> len <= NdefCapacity(dataBytes)
  {
  }
}
