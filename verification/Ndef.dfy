/** NDEF messages (components/stark_nfc/ndef.c): records parsed as views into the caller's
    buffer, their encoder, and the URI and Text record types. */
module Ndef {
  import opened Stark

  const MAX_RECORDS := 8
  const NDEF_MAX := 872
  const TNF_EMPTY := 0
  const TNF_WELL_KNOWN := 1
  const TNF_UNKNOWN := 5
  const TNF_UNCHANGED := 6

  // ---- The header byte -------------------------------------------------------

  /** MB 0x80, ME 0x40, CF 0x20, SR 0x10, IL 0x08 and the three TNF bits. */
  datatype Flags = Flags(mb: bool, me: bool, cf: bool, sr: bool, il: bool, tnf: nat)

  function Rest(h: nat, bit: nat): (r: nat)
    ensures h < 2 * bit ==> r < bit || bit == 0
  {
    if h >= bit then h - bit else h
  }

  function FlagsOf(h: byte): (f: Flags)
    ensures f.tnf < 8
  {
    var h1 := Rest(h, 0x80);
    var h2 := Rest(h1, 0x40);
    var h3 := Rest(h2, 0x20);
    var h4 := Rest(h3, 0x10);
    Flags(h >= 0x80, h1 >= 0x40, h2 >= 0x20, h3 >= 0x10, h4 >= 0x08, Rest(h4, 0x08))
  }

  function HeaderByte(f: Flags): byte
    requires f.tnf < 8
  {
    (if f.mb then 0x80 else 0) + (if f.me then 0x40 else 0) + (if f.cf then 0x20 else 0) +
    (if f.sr then 0x10 else 0) + (if f.il then 0x08 else 0) + f.tnf
  }

  lemma FlagsRoundTrip(f: Flags, h: byte)
    ensures f.tnf < 8 ==> FlagsOf(HeaderByte(f)) == f
    ensures HeaderByte(FlagsOf(h)) == h
  {
  }

  // ---- Records ---------------------------------------------------------------

  datatype Record = Record(tnf: nat, kind: seq<byte>, id: seq<byte>, payload: seq<byte>)

  /** A stretch of the message buffer. */
  datatype View = View(off: nat, len: nat) {
    function End(): nat { off + len }
  }

  datatype RecordView = RecordView(tnf: nat, kind: View, id: View, payload: View)

  /** The length rules each TNF imposes (NDEF section 3.3). */
  predicate LengthsOk(tnf: nat, kindLen: nat, idLen: nat, payloadLen: nat) {
    if tnf == TNF_EMPTY then kindLen == 0 && idLen == 0 && payloadLen == 0
    else if tnf == TNF_UNKNOWN then kindLen == 0
    else kindLen > 0
  }

  predicate Inside(v: View, buf: seq<byte>) {
    v.End() <= |buf|
  }

  function Slice(buf: seq<byte>, v: View): seq<byte>
    requires Inside(v, buf)
  {
    buf[v.off..v.End()]
  }

  predicate ViewsInside(r: RecordView, buf: seq<byte>) {
    Inside(r.kind, buf) && Inside(r.id, buf) && Inside(r.payload, buf)
  }

  function Content(buf: seq<byte>, r: RecordView): Record
    requires ViewsInside(r, buf)
  {
    Record(r.tnf, Slice(buf, r.kind), Slice(buf, r.id), Slice(buf, r.payload))
  }

  // ---- Parsing ---------------------------------------------------------------

  datatype Parsed = Reject(err: Err) | Accept(record: RecordView, next: nat, last: bool)

  function BigEndian(buf: seq<byte>, pos: nat, n: nat): nat
    requires pos + n <= |buf|
  {
    if n == 0 then 0 else 0x100 * BigEndian(buf, pos, n - 1) + buf[pos + (n - 1)] as nat
  }

  datatype Head = BadHead(err: Err) | Head(flags: Flags, kindLen: nat, idLen: nat, payloadLen: nat, body: nat)

  /** The header of the record at pos, the count-th of the message. */
  function ParseHead(buf: seq<byte>, pos: nat, count: nat): (h: Head)
    requires pos <= |buf|
    ensures h.Head? ==> pos + 3 <= h.body <= |buf| && h.flags == FlagsOf(buf[pos])
  {
    if |buf| - pos < 2 then BadHead(InvalidArg)
    else
      var f := FlagsOf(buf[pos]);
      if f.mb != (count == 0) || f.tnf == 7 then BadHead(InvalidArg)
      else if f.cf || f.tnf == TNF_UNCHANGED then BadHead(NotSupported)
      else
        var lenBytes := if f.sr then 1 else 4;
        if |buf| - (pos + 2) < lenBytes then BadHead(InvalidArg)
        else
          var payloadLen := BigEndian(buf, pos + 2, lenBytes);
          var at := pos + 2 + lenBytes;
          if payloadLen > NDEF_MAX || (f.il && at == |buf|) then BadHead(InvalidArg)
          else if f.il then Head(f, buf[pos + 1], buf[at], payloadLen, at + 1)
          else Head(f, buf[pos + 1], 0, payloadLen, at)
  }

  function BodyViews(h: Head): RecordView
    requires h.Head?
  {
    var id := h.body + h.kindLen;
    RecordView(h.flags.tnf, View(h.body, h.kindLen), View(id, h.idLen), View(id + h.idLen, h.payloadLen))
  }

  /** The record at pos, the count-th of the message. */
  function ParseRecord(buf: seq<byte>, pos: nat, count: nat): (p: Parsed)
    requires pos <= |buf|
    ensures p.Accept? ==>
              && pos + 3 <= p.record.kind.off && p.record.kind.End() == p.record.id.off
              && p.record.id.End() == p.record.payload.off && p.record.payload.End() == p.next <= |buf|
  {
    match ParseHead(buf, pos, count)
    case BadHead(err) => Reject(err)
    case Head(f, kindLen, idLen, payloadLen, body) =>
      if !LengthsOk(f.tnf, kindLen, idLen, payloadLen) || |buf| - body < kindLen + idLen + payloadLen then
        Reject(InvalidArg)
      else if count == MAX_RECORDS then Reject(NoSpace)
      else Accept(BodyViews(ParseHead(buf, pos, count)), body + kindLen + idLen + payloadLen, f.me)
  }

  datatype Outcome = Failed(err: Err) | Message(records: seq<RecordView>)

  function ParseFrom(buf: seq<byte>, pos: nat, records: seq<RecordView>): Outcome
    requires pos <= |buf|
    decreases |buf| - pos
  {
    match ParseRecord(buf, pos, |records|)
    case Reject(err) => Failed(err)
    case Accept(record, next, last) =>
      if !last then ParseFrom(buf, next, records + [record])
      else if next == |buf| then Message(records + [record])
      else Failed(InvalidArg)
  }

  method ReadHead(buf: seq<byte>, start: nat, count: nat) returns (h: Head)
    requires start <= |buf|
    ensures h == ParseHead(buf, start, count)
  {
    var pos := start;
    if |buf| - pos < 2 {
      return BadHead(InvalidArg);
    }
    var f := FlagsOf(buf[pos]);
    pos := pos + 1;
    if f.mb != (count == 0) {
      return BadHead(InvalidArg);
    }
    if f.tnf == 7 {
      return BadHead(InvalidArg);
    }
    if f.cf || f.tnf == TNF_UNCHANGED {
      return BadHead(NotSupported);
    }
    var kindLen: nat := buf[pos];
    pos := pos + 1;
    var lenBytes := if f.sr then 1 else 4;
    if |buf| - pos < lenBytes {
      return BadHead(InvalidArg);
    }
    var payloadLen := 0;
    var i := 0;
    while i < lenBytes
      invariant 0 <= i <= lenBytes && pos == start + 2 + i
      invariant payloadLen == BigEndian(buf, start + 2, i)
    {
      payloadLen := payloadLen * 0x100 + buf[pos] as nat;
      pos := pos + 1;
      i := i + 1;
    }
    if payloadLen > NDEF_MAX {
      return BadHead(InvalidArg);
    }
    var idLen: nat := 0;
    if f.il {
      if pos == |buf| {
        return BadHead(InvalidArg);
      }
      idLen := buf[pos];
      pos := pos + 1;
    }
    h := Head(f, kindLen, idLen, payloadLen, pos);
  }

  method Parse(buf: seq<byte>) returns (err: Err, records: seq<RecordView>)
    ensures match ParseFrom(buf, 0, [])
            case Failed(e) => err == e
            case Message(rs) => err == Ok && records == rs
  {
    hide ParseHead;
    records := [];
    var pos := 0;
    while true
      invariant pos <= |buf| && ParseFrom(buf, pos, records) == ParseFrom(buf, 0, [])
      decreases |buf| - pos
    {
      var h := ReadHead(buf, pos, |records|);
      if h.BadHead? {
        return h.err, records;
      }
      pos := h.body;
      if !LengthsOk(h.flags.tnf, h.kindLen, h.idLen, h.payloadLen) ||
         |buf| - pos < h.kindLen + h.idLen + h.payloadLen {
        return InvalidArg, records;
      }
      if |records| == MAX_RECORDS {
        return NoSpace, records;
      }
      var kind := View(pos, h.kindLen);
      pos := pos + h.kindLen;
      var id := View(pos, h.idLen);
      pos := pos + h.idLen;
      var payload := View(pos, h.payloadLen);
      pos := pos + h.payloadLen;
      records := records + [RecordView(h.flags.tnf, kind, id, payload)];
      if h.flags.me {
        return if pos == |buf| then Ok else InvalidArg, records;
      }
    }
  }

  // ---- Encoding --------------------------------------------------------------

  /** The C struct's length fields: one byte for type and ID. */
  predicate Fits(r: Record) {
    |r.kind| < 0x100 && |r.id| < 0x100
  }

  predicate Encodable(r: Record) {
    && Fits(r) && r.tnf < TNF_UNCHANGED && |r.payload| <= NDEF_MAX
    && LengthsOk(r.tnf, |r.kind|, |r.id|, |r.payload|)
  }

  function RecordFlags(r: Record, first: bool, last: bool): Flags {
    Flags(first, last, false, |r.payload| <= 255, |r.id| > 0, r.tnf)
  }

  /** A payload length of at most 872 in four bytes, most significant first. */
  function LongLength(len: nat): seq<byte>
    requires len <= NDEF_MAX
  {
    if len < 0x100 then [0, 0, 0, len]
    else if len < 0x200 then [0, 0, 1, len - 0x100]
    else if len < 0x300 then [0, 0, 2, len - 0x200]
    else [0, 0, 3, len - 0x300]
  }

  function RecordHead(r: Record, first: bool, last: bool): (h: seq<byte>)
    requires Encodable(r)
  {
    [HeaderByte(RecordFlags(r, first, last)), |r.kind|] +
    (if |r.payload| <= 255 then [|r.payload|] else LongLength(|r.payload|)) +
    (if |r.id| > 0 then [|r.id|] else [])
  }

  function RecordBytes(r: Record, first: bool, last: bool): seq<byte>
    requires Encodable(r)
  {
    RecordHead(r, first, last) + r.kind + r.id + r.payload
  }

  predicate AllEncodable(rs: seq<Record>) {
    forall i :: 0 <= i < |rs| ==> Encodable(rs[i])
  }

  /** Records i onward of a message. */
  function EncodeFrom(rs: seq<Record>, i: nat): seq<byte>
    requires i <= |rs| && AllEncodable(rs)
    decreases |rs| - i
  {
    if i == |rs| then [] else RecordBytes(rs[i], i == 0, i == |rs| - 1) + EncodeFrom(rs, i + 1)
  }

  predicate Sendable(rs: seq<Record>) {
    1 <= |rs| <= MAX_RECORDS && AllEncodable(rs)
  }

  method Put(out: array<byte>, pos: nat, src: seq<byte>) returns (next: nat)
    requires pos + |src| <= out.Length
    modifies out
    ensures next == pos + |src| && out[..next] == old(out[..pos]) + src
  {
    forall k | 0 <= k < |src| {
      out[pos + k] := src[k];
    }
    next := pos + |src|;
    assert out[..pos] == old(out[..pos]);
    assert out[pos..next] == src;
  }

  method PutRecord(out: array<byte>, pos: nat, r: Record, first: bool, last: bool) returns (next: nat)
    requires Encodable(r) && pos + |RecordBytes(r, first, last)| <= out.Length
    modifies out
    ensures next == pos + |RecordBytes(r, first, last)|
    ensures out[..next] == old(out[..pos]) + RecordBytes(r, first, last)
  {
    hide RecordHead, Encodable;
    next := Put(out, pos, RecordHead(r, first, last));
    next := Put(out, next, r.kind);
    next := Put(out, next, r.id);
    next := Put(out, next, r.payload);
  }

  lemma RecordSize(r: Record, first: bool, last: bool)
    requires Encodable(r)
    ensures |RecordBytes(r, first, last)|
         == 2 + (if |r.payload| <= 255 then 1 else 4) + (if |r.id| > 0 then 1 else 0) + |r.kind| + |r.id| + |r.payload|
  {
  }

  lemma EncodeStep(before: seq<byte>, rs: seq<Record>, i: nat)
    requires i < |rs| && AllEncodable(rs)
    ensures before + EncodeFrom(rs, i)
         == before + RecordBytes(rs[i], i == 0, i == |rs| - 1) + EncodeFrom(rs, i + 1)
  {
  }

  /** Bytes written, or 0 when a record is invalid or the buffer too small. */
  method Encode(rs: seq<Record>, out: array<byte>) returns (n: nat)
    requires forall r <- rs :: Fits(r)
    modifies out
    ensures n == if Sendable(rs) && |EncodeFrom(rs, 0)| <= out.Length then |EncodeFrom(rs, 0)| else 0
    ensures n > 0 ==> Sendable(rs) && out[..n] == EncodeFrom(rs, 0)
  {
    hide RecordBytes, LengthsOk;
    if |rs| == 0 || |rs| > MAX_RECORDS {
      return 0;
    }
    var pos: nat := 0;
    var i := 0;
    while i < |rs|
      invariant i <= |rs| && pos <= out.Length
      invariant forall k :: 0 <= k < i ==> Encodable(rs[k])
      invariant AllEncodable(rs) ==> out[..pos] + EncodeFrom(rs, i) == EncodeFrom(rs, 0)
    {
      var r := rs[i];
      if r.tnf >= TNF_UNCHANGED || |r.payload| > NDEF_MAX || !LengthsOk(r.tnf, |r.kind|, |r.id|, |r.payload|) {
        assert !Encodable(rs[i]);
        return 0;
      }
      var need := 2 + (if |r.payload| <= 255 then 1 else 4) + (if |r.id| > 0 then 1 else 0) +
                  |r.kind| + |r.id| + |r.payload|;
      RecordSize(r, i == 0, i == |rs| - 1);
      if AllEncodable(rs) {
        EncodeStep(out[..pos], rs, i);
      }
      if out.Length - pos < need {
        return 0;
      }
      pos := PutRecord(out, pos, r, i == 0, i == |rs| - 1);
      i := i + 1;
    }
    assert out[..pos] + [] == out[..pos];
    n := pos;
  }

  // ---- Parsing what was encoded ----------------------------------------------

  predicate SameContents(buf: seq<byte>, views: seq<RecordView>, rs: seq<Record>) {
    |views| == |rs| && forall i :: 0 <= i < |rs| ==> ViewsInside(views[i], buf) && Content(buf, views[i]) == rs[i]
  }

  lemma BigEndianOfOne(buf: seq<byte>, pos: nat)
    requires pos < |buf|
    ensures BigEndian(buf, pos, 1) == buf[pos] as nat
  {
    assert BigEndian(buf, pos, 0) == 0;
  }

  lemma {:induction false} BigEndianOfLength(buf: seq<byte>, pos: nat, len: nat)
    requires len <= NDEF_MAX
    ensures len <= 255 && pos < |buf| && buf[pos] == len ==> BigEndian(buf, pos, 1) == len
    ensures pos + 4 <= |buf| && buf[pos..pos + 4] == LongLength(len) ==> BigEndian(buf, pos, 4) == len
  {
    if pos + 4 <= |buf| && buf[pos..pos + 4] == LongLength(len) {
      assert forall k :: 0 <= k < 4 ==> buf[pos + k] == LongLength(len)[k];
      assert BigEndian(buf, pos, 1) == 0;
      assert BigEndian(buf, pos, 2) == 0;
      assert BigEndian(buf, pos, 3) == buf[pos + 2] as nat;
    }
  }

  lemma {:induction false} HeadParsesBack(buf: seq<byte>, pos: nat, r: Record, first: bool, last: bool, count: nat)
    requires Encodable(r) && first == (count == 0)
    requires var h := RecordHead(r, first, last); pos + |h| <= |buf| && buf[pos..pos + |h|] == h
    ensures ParseHead(buf, pos, count)
         == Head(RecordFlags(r, first, last), |r.kind|, |r.id|, |r.payload|, pos + |RecordHead(r, first, last)|)
  {
    var head := buf[pos..pos + |RecordHead(r, first, last)|];
    FlagsRoundTrip(RecordFlags(r, first, last), 0);
    assert buf[pos] == head[0] && buf[pos + 1] == head[1] && buf[pos + 2] == head[2];
    if |r.payload| <= 255 {
      assert head[2] == |r.payload|;
      if |r.id| > 0 {
        assert buf[pos + 3] == head[3] == |r.id|;
      }
    } else {
      SubSlice(buf, pos, pos + |head|, 2, 6);
      assert head[2..6] == LongLength(|r.payload|);
      if |r.id| > 0 {
        assert buf[pos + 6] == head[6] == |r.id|;
      }
    }
    BigEndianOfLength(buf, pos + 2, |r.payload|);
  }

  lemma {:induction false} RecordParsesBack(buf: seq<byte>, pos: nat, r: Record, first: bool, last: bool, count: nat)
    requires Encodable(r) && count < MAX_RECORDS && first == (count == 0)
    requires var b := RecordBytes(r, first, last); pos + |b| <= |buf| && buf[pos..pos + |b|] == b
    ensures var p := ParseRecord(buf, pos, count);
            && p.Accept? && p.last == last && p.next == pos + |RecordBytes(r, first, last)|
            && ViewsInside(p.record, buf) && Content(buf, p.record) == r
  {
    hide FlagsOf, HeaderByte, RecordHead, ParseHead, BigEndian;
    FourParts(buf, pos, RecordHead(r, first, last), r.kind, r.id, r.payload);
    HeadParsesBack(buf, pos, r, first, last, count);
  }

  lemma {:induction false} FourParts(buf: seq<byte>, pos: nat, a: seq<byte>, b: seq<byte>, c: seq<byte>, d: seq<byte>)
    requires pos + |a + b + c + d| <= |buf| && buf[pos..pos + |a + b + c + d|] == a + b + c + d
    ensures buf[pos..pos + |a|] == a
    ensures buf[pos + |a|..pos + |a| + |b|] == b
    ensures buf[pos + |a| + |b|..pos + |a| + |b| + |c|] == c
    ensures buf[pos + |a| + |b| + |c|..pos + |a| + |b| + |c| + |d|] == d
  {
    var all := a + b + c + d;
    assert forall k :: 0 <= k < |all| ==> buf[pos + k] == buf[pos..pos + |all|][k] == all[k];
    assert forall k :: 0 <= k < |a| ==> all[k] == a[k];
    assert forall k :: 0 <= k < |b| ==> all[|a| + k] == b[k];
    assert forall k :: 0 <= k < |c| ==> all[|a| + |b| + k] == c[k];
    assert forall k :: 0 <= k < |d| ==> all[|a| + |b| + |c| + k] == d[k];
  }

  lemma {:induction false} SplitAt(buf: seq<byte>, pos: nat, a: seq<byte>, b: seq<byte>)
    requires pos <= |buf| && buf[pos..] == a + b
    ensures pos + |a| <= |buf| && buf[pos..pos + |a|] == a && buf[pos + |a|..] == b
  {
    assert buf[pos..pos + |a|] == buf[pos..][..|a|];
    assert buf[pos + |a|..] == buf[pos..][|a|..];
  }

  lemma MoreContents(buf: seq<byte>, views: seq<RecordView>, v: RecordView, rs: seq<Record>, i: nat)
    requires i < |rs| && SameContents(buf, views, rs[..i]) && ViewsInside(v, buf) && Content(buf, v) == rs[i]
    ensures SameContents(buf, views + [v], rs[..i + 1])
  {
  }

  lemma {:induction false} EncodedParsesFrom(buf: seq<byte>, pos: nat, rs: seq<Record>, i: nat, views: seq<RecordView>)
    requires Sendable(rs) && i < |rs| && |views| == i && pos <= |buf| && buf[pos..] == EncodeFrom(rs, i)
    requires SameContents(buf, views, rs[..i])
    ensures var r := ParseFrom(buf, pos, views); r.Message? && SameContents(buf, r.records, rs)
    decreases |rs| - i
  {
    hide ParseRecord, RecordBytes;
    var bytes := RecordBytes(rs[i], i == 0, i == |rs| - 1);
    var next := pos + |bytes|;
    SplitAt(buf, pos, bytes, EncodeFrom(rs, i + 1));
    RecordParsesBack(buf, pos, rs[i], i == 0, i == |rs| - 1, i);
    var more := views + [ParseRecord(buf, pos, i).record];
    MoreContents(buf, views, ParseRecord(buf, pos, i).record, rs, i);
    if i == |rs| - 1 {
      assert rs[..i + 1] == rs;
    } else {
      EncodedParsesFrom(buf, next, rs, i + 1, more);
    }
  }

  /** Parsing what the encoder wrote gives exactly the same 1 to 8 records. */
  lemma {:induction false} EncodeThenParse(rs: seq<Record>)
    requires Sendable(rs)
    ensures var r := ParseFrom(EncodeFrom(rs, 0), 0, []);
            r.Message? && SameContents(EncodeFrom(rs, 0), r.records, rs)
  {
    var buf := EncodeFrom(rs, 0);
    assert buf[0..] == buf;
    EncodedParsesFrom(buf, 0, rs, 0, []);
  }

  // ---- Encoding what was parsed ----------------------------------------------

  function Contents(buf: seq<byte>, views: seq<RecordView>): (rs: seq<Record>)
    requires forall i :: 0 <= i < |views| ==> ViewsInside(views[i], buf)
    ensures |rs| == |views| && forall i :: 0 <= i < |rs| ==> rs[i] == Content(buf, views[i])
  {
    if views == [] then [] else Contents(buf, views[..|views| - 1]) + [Content(buf, views[|views| - 1])]
  }

  /** The views lie one after the other inside the buffer: each record's type, ID and payload
      are adjacent, and at least three header bytes precede each record. */
  predicate InOrder(views: seq<RecordView>, from: nat, end: nat) {
    if views == [] then from == end
    else
      var r := views[0];
      && from + 3 <= r.kind.off && r.kind.End() == r.id.off && r.id.End() == r.payload.off
      && r.payload.End() <= end && InOrder(views[1..], r.payload.End(), end)
  }

  /** The record at pos is written the way the encoder would write it. */
  predicate Canonical(buf: seq<byte>, pos: nat, r: RecordView)
    requires pos < |buf|
  {
    FlagsOf(buf[pos]).sr == (r.payload.len <= 255) && FlagsOf(buf[pos]).il == (r.id.len > 0)
  }

  predicate AllCanonical(buf: seq<byte>, pos: nat, views: seq<RecordView>)
    decreases |views|
  {
    views == [] || (pos < |buf| && Canonical(buf, pos, views[0])
                    && AllCanonical(buf, views[0].payload.End(), views[1..]))
  }

  lemma {:induction false} AcceptedRecord(buf: seq<byte>, pos: nat, count: nat, p: Parsed, r: Record)
    requires pos <= |buf| && count <= MAX_RECORDS
    requires p == ParseRecord(buf, pos, count) && p.Accept? && r == Content(buf, p.record)
    ensures Encodable(r) && count < MAX_RECORDS && FlagsOf(buf[pos]).me == p.last
    ensures |RecordBytes(r, count == 0, p.last)| <= p.next - pos
    ensures |RecordBytes(r, count == 0, p.last)| == p.next - pos <==> Canonical(buf, pos, p.record)
  {
    hide ParseHead, FlagsOf, HeaderByte, RecordHead, RecordBytes;
    HeadSize(buf, pos, count);
    var h := ParseHead(buf, pos, count);
    assert |r.kind| == h.kindLen && |r.id| == h.idLen && |r.payload| == h.payloadLen;
    RecordSize(r, count == 0, p.last);
  }

  lemma {:induction false} HeadSize(buf: seq<byte>, pos: nat, count: nat)
    requires pos <= |buf| && ParseHead(buf, pos, count).Head?
    ensures var h := ParseHead(buf, pos, count);
            && h.body == pos + 2 + (if h.flags.sr then 1 else 4) + (if h.flags.il then 1 else 0)
            && h.kindLen < 0x100 && h.idLen < 0x100 && h.payloadLen <= NDEF_MAX && h.flags.tnf < TNF_UNCHANGED
            && (h.flags.sr ==> h.payloadLen <= 255) && (!h.flags.il ==> h.idLen == 0)
  {
    hide FlagsOf, BigEndian;
    var h := ParseHead(buf, pos, count);
    FlagsBelow(buf[pos]);
    if h.flags.sr {
      BigEndianOfOne(buf, pos + 2);
    }
  }

  lemma FlagsBelow(h: byte)
    ensures FlagsOf(h).tnf < 8
  {
  }

  lemma {:induction false} CanonicalHead(buf: seq<byte>, pos: nat, count: nat, r: Record, h: Head)
    requires pos <= |buf| && h == ParseHead(buf, pos, count) && h.Head? && Encodable(r)
    requires |r.kind| == h.kindLen && |r.id| == h.idLen && |r.payload| == h.payloadLen && r.tnf == h.flags.tnf
    requires h.flags.sr == (h.payloadLen <= 255) && h.flags.il == (h.idLen > 0)
    ensures RecordHead(r, count == 0, h.flags.me) == buf[pos..h.body]
  {
    FlagsRoundTrip(h.flags, buf[pos]);
    assert RecordFlags(r, count == 0, h.flags.me) == h.flags;
    var id := if h.flags.il then [buf[h.body - 1]] else [];
    if h.flags.sr {
      BigEndianOfOne(buf, pos + 2);
      assert buf[pos..h.body] == [buf[pos], buf[pos + 1]] + [buf[pos + 2]] + id;
    } else {
      LongLengthIs(buf, pos + 2);
      assert buf[pos..h.body] == [buf[pos], buf[pos + 1]] + buf[pos + 2..pos + 6] + id;
    }
  }

  lemma {:induction false} CanonicalRecord(buf: seq<byte>, pos: nat, count: nat)
    requires pos <= |buf| && count <= MAX_RECORDS && ParseRecord(buf, pos, count).Accept?
    requires Canonical(buf, pos, ParseRecord(buf, pos, count).record)
    ensures var p := ParseRecord(buf, pos, count);
            var r := Content(buf, p.record);
            Encodable(r) && RecordBytes(r, count == 0, p.last) == buf[pos..p.next]
  {
    hide ParseHead, RecordHead, FlagsOf, Encodable;
    var p := ParseRecord(buf, pos, count);
    var r := Content(buf, p.record);
    AcceptedRecord(buf, pos, count, p, r);
    CanonicalHead(buf, pos, count, r, ParseHead(buf, pos, count));
    var v := p.record;
    JoinSlices(buf, pos, v.kind.off, v.id.off);
    JoinSlices(buf, pos, v.id.off, v.payload.off);
    JoinSlices(buf, pos, v.payload.off, p.next);
  }

  lemma JoinSlices(buf: seq<byte>, a: nat, b: nat, c: nat)
    requires a <= b <= c <= |buf|
    ensures buf[a..b] + buf[b..c] == buf[a..c]
  {
  }

  lemma {:induction false} LongLengthIs(buf: seq<byte>, pos: nat)
    requires pos + 4 <= |buf| && BigEndian(buf, pos, 4) <= NDEF_MAX
    ensures buf[pos..pos + 4] == LongLength(BigEndian(buf, pos, 4))
  {
    assert BigEndian(buf, pos, 1) == buf[pos] as nat;
    assert BigEndian(buf, pos, 2) == 0x100 * buf[pos] as nat + buf[pos + 1] as nat;
    assert BigEndian(buf, pos, 3) == 0x10000 * buf[pos] as nat + 0x100 * buf[pos + 1] as nat + buf[pos + 2] as nat;
  }

  /** Everything an accepted message satisfies from its |views|-th record on. */
  lemma {:induction false} AcceptedFrom(buf: seq<byte>, pos: nat, views: seq<RecordView>)
    requires pos <= |buf| && |views| <= MAX_RECORDS && ParseFrom(buf, pos, views).Message?
    ensures var all := ParseFrom(buf, pos, views).records;
            && |views| < |all| <= MAX_RECORDS && views == all[..|views|]
            && InOrder(all[|views|..], pos, |buf|)
            && (forall i :: |views| <= i < |all| ==> ViewsInside(all[i], buf) && Encodable(Content(buf, all[i])))
    decreases |buf| - pos
  {
    hide ParseRecord, RecordBytes, Encodable, Content;
    var p := ParseRecord(buf, pos, |views|);
    AcceptedRecord(buf, pos, |views|, p, Content(buf, p.record));
    var more := views + [p.record];
    var all := ParseFrom(buf, pos, views).records;
    if !p.last {
      AcceptedFrom(buf, p.next, more);
    }
    OneFurther(views, p.record, all);
    hide ParseFrom;
    assert InOrder(all[|more|..], p.next, |buf|);
  }

  lemma {:induction false} OneFurther(views: seq<RecordView>, v: RecordView, all: seq<RecordView>)
    requires |views| < |all| && views + [v] == all[..|views| + 1]
    ensures views == all[..|views|] && all[|views|] == v && all[|views|..] == [v] + all[|views| + 1..]
  {
    assert views == all[..|views| + 1][..|views|];
    assert v == all[..|views| + 1][|views|];
  }

  /** The views of an accepted message lie in order and disjoint inside the buffer, and every
      record can be encoded again. */
  lemma {:induction false} AcceptedViews(buf: seq<byte>)
    requires ParseFrom(buf, 0, []).Message?
    ensures var views := ParseFrom(buf, 0, []).records;
            && InOrder(views, 0, |buf|)
            && (forall i :: 0 <= i < |views| ==> ViewsInside(views[i], buf))
            && Sendable(Contents(buf, views))
  {
    AcceptedFrom(buf, 0, []);
    var views := ParseFrom(buf, 0, []).records;
    assert views[0..] == views;
  }

  /** Views in order do not overlap. */
  lemma {:induction false} InOrderDisjoint(views: seq<RecordView>, from: nat, end: nat, i: nat, j: nat)
    requires InOrder(views, from, end) && i < j < |views|
    ensures from <= views[i].kind.off <= views[i].kind.End() <= views[i].id.End() <= views[i].payload.End()
    ensures views[i].payload.End() < views[j].kind.off && views[j].payload.End() <= end
    decreases |views|
  {
    InOrderBounds(views[1..], views[0].payload.End(), end, j - 1);
    if i > 0 {
      InOrderDisjoint(views[1..], views[0].payload.End(), end, i - 1, j - 1);
    }
  }

  lemma {:induction false} InOrderBounds(views: seq<RecordView>, from: nat, end: nat, j: nat)
    requires InOrder(views, from, end) && j < |views|
    ensures from < views[j].kind.off && views[j].payload.End() <= end
    decreases |views|
  {
    if j > 0 {
      InOrderBounds(views[1..], views[0].payload.End(), end, j - 1);
    }
  }

  /** Re-encoding from the i-th record on takes no more bytes than the buffer had, and the very
      same bytes exactly when every record was written in the encoder's form. */
  lemma {:induction false} ReencodeFrom(buf: seq<byte>, pos: nat, views: seq<RecordView>, rs: seq<Record>)
    requires pos <= |buf| && |views| <= MAX_RECORDS && ParseFrom(buf, pos, views).Message? && AllEncodable(rs)
    requires SameContents(buf, ParseFrom(buf, pos, views).records, rs)
    ensures var all := ParseFrom(buf, pos, views).records;
            && |views| < |all|
            && |EncodeFrom(rs, |views|)| <= |buf| - pos
            && (AllCanonical(buf, pos, all[|views|..]) ==> EncodeFrom(rs, |views|) == buf[pos..])
            && (|EncodeFrom(rs, |views|)| == |buf| - pos ==> AllCanonical(buf, pos, all[|views|..]))
    decreases |buf| - pos
  {
    hide ParseRecord, RecordBytes, Canonical, Encodable, Content, InOrder, EncodeFrom, AllCanonical;
    var i, all := |views|, ParseFrom(buf, pos, views).records;
    AcceptedFrom(buf, pos, views);
    var p := ParseRecord(buf, pos, i);
    AcceptedRecord(buf, pos, i, p, Content(buf, p.record));
    var more := views + [p.record];
    if !p.last {
      AcceptedFrom(buf, p.next, more);
      ReencodeFrom(buf, p.next, more, rs);
    }
    OneFurther(views, p.record, all);
    assert rs[i] == Content(buf, p.record);
    assert p.last == (i == |rs| - 1);
    EncodeUnrolls(rs, i);
    CanonicalUnrolls(buf, pos, p.record, all[i + 1..]);
    if Canonical(buf, pos, p.record) {
      CanonicalRecord(buf, pos, i);
    }
    Joined(buf, pos, p.next, RecordBytes(rs[i], i == 0, p.last), EncodeFrom(rs, i + 1), Canonical(buf, pos, p.record),
           AllCanonical(buf, p.next, all[i + 1..]));
  }

  lemma EncodeUnrolls(rs: seq<Record>, i: nat)
    requires i < |rs| && AllEncodable(rs)
    ensures EncodeFrom(rs, i) == RecordBytes(rs[i], i == 0, i == |rs| - 1) + EncodeFrom(rs, i + 1)
    ensures i == |rs| - 1 ==> EncodeFrom(rs, i + 1) == []
  {
  }

  lemma CanonicalUnrolls(buf: seq<byte>, pos: nat, v: RecordView, rest: seq<RecordView>)
    requires pos < |buf|
    ensures AllCanonical(buf, pos, [v] + rest) <==> Canonical(buf, pos, v) && AllCanonical(buf, v.payload.End(), rest)
    ensures AllCanonical(buf, v.payload.End(), [])
  {
    assert ([v] + rest)[1..] == rest;
  }

  /** A record and what follows it, each no longer than what it replaces. */
  lemma {:induction false} Joined(buf: seq<byte>, pos: nat, next: nat, one: seq<byte>, more: seq<byte>, head: bool,
                                  rest: bool)
    requires pos <= next <= |buf| && |one| <= next - pos && |more| <= |buf| - next
    requires (|one| == next - pos <==> head) && (head ==> one == buf[pos..next])
    requires (|more| == |buf| - next ==> rest) && (rest ==> more == buf[next..])
    ensures |one + more| <= |buf| - pos && (|one + more| == |buf| - pos ==> head && rest)
    ensures head && rest ==> one + more == buf[pos..]
  {
    assert buf[pos..] == buf[pos..next] + buf[next..];
  }

  /** For every accepted buffer: its records re-encode to at most as many bytes, which parse to
      the same records; to the same bytes exactly when every record used the short form and the
      ID flag only where the encoder would. */
  lemma {:induction false} ParseThenEncode(buf: seq<byte>)
    requires ParseFrom(buf, 0, []).Message?
    ensures var views := ParseFrom(buf, 0, []).records;
            && (forall i :: 0 <= i < |views| ==> ViewsInside(views[i], buf))
            && var rs := Contents(buf, views);
               && Sendable(rs) && |EncodeFrom(rs, 0)| <= |buf|
               && ParseFrom(EncodeFrom(rs, 0), 0, []).Message?
               && SameContents(EncodeFrom(rs, 0), ParseFrom(EncodeFrom(rs, 0), 0, []).records, rs)
               && (EncodeFrom(rs, 0) == buf <==> AllCanonical(buf, 0, views))
  {
    hide ParseFrom, EncodeFrom, AllCanonical, Encodable, InOrder, Content;
    AcceptedViews(buf);
    var rs := Contents(buf, ParseFrom(buf, 0, []).records);
    EncodeThenParse(rs);
    SameBytes(buf, rs);
  }

  /** Re-encoding the records of an accepted buffer shortens it, or gives it back. */
  lemma {:induction false} SameBytes(buf: seq<byte>, rs: seq<Record>)
    requires ParseFrom(buf, 0, []).Message? && AllEncodable(rs)
    requires SameContents(buf, ParseFrom(buf, 0, []).records, rs)
    ensures |EncodeFrom(rs, 0)| <= |buf|
    ensures EncodeFrom(rs, 0) == buf <==> AllCanonical(buf, 0, ParseFrom(buf, 0, []).records)
  {
    hide ParseFrom, EncodeFrom, AllCanonical, Encodable, SameContents;
    ReencodeFrom(buf, 0, [], rs);
    var views := ParseFrom(buf, 0, []).records;
    assert views[0..] == views && buf[0..] == buf;
  }
}
