/** The Type 2 tag behind the PN532, and the reader and writer that exchange commands with
    it (components/stark_nfc/nfc_reader.c and nfc_writer.c). */
module NfcTag {
  import opened Stark
  import opened NfcType2

  const READ: byte := 0x30
  const WRITE: byte := 0xA2
  const VERSION: byte := 0x60
  const DATA_PAGE := 4

  /** Byte i of the tag as addressed; past the end it rolls over to page 0. */
  function Cell(mem: seq<byte>, i: nat): byte
    requires |mem| > 0
  {
    if i < |mem| then mem[i] else Cell(mem, i - |mem|)
  }

  function Cells(mem: seq<byte>, start: nat, n: nat): (s: seq<byte>)
    requires |mem| > 0
    ensures |s| == n && forall k :: 0 <= k < n ==> s[k] == Cell(mem, start + k)
    decreases n
  {
    if n == 0 then [] else Cells(mem, start, n - 1) + [Cell(mem, start + (n - 1))]
  }

  /** A page number as the one byte that goes over the wire. */
  function WirePage(page: nat): byte {
    page % 0x100
  }

  /** The wire page of the data area's page p. */
  function DataPage(p: nat): byte {
    WirePage(DATA_PAGE + p)
  }

  /** The 16 bytes a READ of `page` returns. */
  function PageBytes(mem: seq<byte>, page: nat): (s: seq<byte>)
    requires |mem| > 0
  {
    Cells(mem, 4 * page, 16)
  }

  /** The data area as READs deliver it. */
  function DataArea(mem: seq<byte>, total: nat): (area: seq<byte>)
    requires |mem| > 0
  {
    Cells(mem, 4 * DATA_PAGE, total)
  }

  predicate TagMemory(mem: seq<byte>) {
    |mem| >= 16 && |mem| % 4 == 0
  }

  function TagCc(mem: seq<byte>): Cc
    requires TagMemory(mem)
  {
    ParseCc(mem[12..16])
  }

  /** What a tag holds, judged from its whole memory. */
  datatype Content = NotFormatted | TooBig | Corrupt | Empty | Message(bytes: seq<byte>)

  function ContentOf(mem: seq<byte>): Content
    requires TagMemory(mem)
  {
    var cc := TagCc(mem);
    if !cc.valid then NotFormatted
    else if cc.dataBytes > NDEF_MAX then TooBig
    else AreaContent(DataArea(mem, cc.dataBytes))
  }

  function AreaContent(area: seq<byte>): Content {
    match Walk(area, |area|, 0)
    case Found(off, len) => if off + len <= |area| then Message(area[off..off + len]) else Corrupt
    case NoTlv => Empty
    case Bad => Corrupt
    case More(_) => Corrupt
  }

  /** The selected tag and the link to it. Every exchange may fail; a failed or short one is
      counted in `faults`. `writes` lists the pages the tag was told to write. */
  class Tag {
    const mem: array<byte>
    const uid: seq<byte>
    ghost var faults: nat
    ghost var writes: seq<nat>

    constructor (image: array<byte>, id: seq<byte>)
      ensures mem == image && uid == id && faults == 0 && writes == []
    {
      mem, uid := image, id;
      faults, writes := 0, [];
    }

    ghost predicate Valid()
      reads this, mem
    {
      TagMemory(mem[..])
    }

    /** nfc_reader_exchange with the tag as the far end. A READ that answers 16 bytes answers
        the memory; a WRITE, acknowledged or not, may leave anything in the page it names
        and only there. */
    method Exchange(cmd: seq<byte>, cap: nat) returns (err: Err, answer: seq<byte>)
      requires Valid() && |cmd| >= 1
      modifies this, mem
      ensures Valid() && faults >= old(faults)
      ensures err != Ok ==> faults > old(faults)
      ensures |answer| <= cap && (err != Ok ==> answer == [])
      ensures cmd[0] != WRITE ==> mem[..] == old(mem[..]) && writes == old(writes)
      ensures cmd[0] == READ && |cmd| == 2 && cap == 16 ==> (|answer| == 16 <==> faults == old(faults))
      ensures cmd[0] == READ && |cmd| == 2 && |answer| == 16 ==> answer == PageBytes(mem[..], cmd[1])
      ensures cmd[0] == WRITE && |cmd| == 6 ==>
                && writes == old(writes) + [cmd[1] as nat]
                && (err == Ok ==> 4 * cmd[1] as nat < mem.Length)
                && forall i :: 0 <= i < mem.Length && i / 4 != cmd[1] ==> mem[i] == old(mem[i])
    {
      var answers: bool := *;
      if !answers || (cmd[0] == READ && (|cmd| != 2 || cap != 16)) || (cmd[0] == WRITE && |cmd| != 6) {
        if cmd[0] == WRITE && |cmd| == 6 {
          Store(cmd[1], cmd[2..]);
        }
        faults := faults + 1;
        var gone: bool := *;
        return if gone then NotFound else Io, [];
      }
      if cmd[0] == READ {
        var short: bool := *;
        if short {
          faults := faults + 1;
          return Ok, [];
        }
        var m := mem[..];
        return Ok, PageBytes(m, cmd[1]);
      }
      if cmd[0] == WRITE {
        Store(cmd[1], cmd[2..]);
        if 4 * cmd[1] as nat < mem.Length {
          return Ok, [];
        }
        faults := faults + 1;
        return Io, [];
      }
      return Ok, [];
    }

    method Store(page: byte, data: seq<byte>)
      requires Valid() && |data| == 4
      modifies this`writes, mem
      ensures Valid() && writes == old(writes) + [page as nat]
      ensures forall i :: 0 <= i < mem.Length && i / 4 != page ==> mem[i] == old(mem[i])
    {
      writes := writes + [page as nat];
      var k := 0;
      while k < 4
        invariant 0 <= k <= 4 && writes == old(writes) + [page as nat]
        invariant forall i :: 0 <= i < mem.Length && i / 4 != page ==> mem[i] == old(mem[i])
      {
        var kept: byte := *;
        if 4 * page as nat + k < mem.Length {
          mem[4 * page as nat + k] := kept;
        }
        k := k + 1;
      }
    }

    /** nfc_reader_reselect: polls for the tag in the field and compares its UID. */
    method Reselect(confirmed: seq<byte>) returns (err: Err)
      requires Valid()
      modifies this`faults
      ensures faults >= old(faults) && (err != Ok ==> faults > old(faults))
      ensures err == Ok ==> confirmed == uid
    {
      var polled: Err := *;
      var found: bool := *;
      if polled != Ok {
        faults := faults + 1;
        return polled;
      }
      if !found {
        faults := faults + 1;
        return NotFound;
      }
      if uid != confirmed {
        faults := faults + 1;
        return State;
      }
      return Ok;
    }

    /** READ: 16 bytes from page on; the page number is one byte on the wire. */
    method Read4(page: nat) returns (err: Err, buf: seq<byte>)
      requires Valid()
      modifies this, mem
      ensures Valid() && faults >= old(faults)
      ensures mem[..] == old(mem[..]) && writes == old(writes)
      ensures err == Ok <==> faults == old(faults)
      ensures err == Ok ==> |buf| == 16 && buf == PageBytes(mem[..], WirePage(page))
    {
      err, buf := Exchange([READ, WirePage(page)], 16);
      if err == Ok && |buf| != 16 {
        err := Io;
      }
    }
  }

  // ---- Reading ---------------------------------------------------------------

  /** stark_nfc_read_t: what reading the present tag gave. */
  class TagRead {
    const ndef: array<byte>
    var ndefLen: nat
    var present: bool
    var writable: bool
    var capacity: nat
    var pages: nat
    var readErr: Err

    constructor ()
      ensures fresh(ndef) && ndef.Length == NDEF_MAX
    {
      ndef := new byte[NDEF_MAX];
    }

    method Describe(cc: Cc)
      modifies this`writable, this`capacity, this`pages
      ensures writable == cc.writable && capacity == NdefCapacity(cc.dataBytes)
      ensures pages == if old(pages) == 0 then DATA_PAGE + cc.dataBytes / 4 else old(pages)
    {
      writable := cc.writable;
      capacity := NdefCapacity(cc.dataBytes);
      if pages == 0 {
        pages := DATA_PAGE + cc.dataBytes / 4;
      }
    }

    predicate Reports(err: Err, content: Content)
      reads this, ndef
    {
      match content
      case NotFormatted => err == Ok && !present
      case TooBig => err == NotSupported && !present
      case Corrupt => err == InvalidArg && !present
      case Empty => err == Ok && !present
      case Message(bytes) => err == Ok && present && ndefLen == |bytes| <= ndef.Length && ndef[..ndefLen] == bytes
    }
  }

  /** Fills area up to `want` bytes of the data area, four pages at a time. */
  method Fill(tag: Tag, area: array<byte>, avail0: nat, want: nat, total: nat) returns (err: Err, avail: nat)
    requires tag.Valid() && area != tag.mem
    requires avail0 <= total <= area.Length <= NDEF_MAX && want <= total
    requires avail0 % 4 == 0 && total % 4 == 0
    requires Holds(area, avail0, tag.mem[..])
    modifies tag, tag.mem, area
    ensures tag.Valid() && tag.mem[..] == old(tag.mem[..]) && tag.writes == old(tag.writes)
    ensures tag.faults >= old(tag.faults) && (err == Ok <==> tag.faults == old(tag.faults))
    ensures err == Ok ==> avail0 <= avail && want <= avail <= total && avail % 4 == 0
    ensures err == Ok ==> Holds(area, avail, tag.mem[..])
  {
    hide Cell, WirePage, PageBytes;
    ghost var mem := tag.mem[..];
    avail := avail0;
    while avail < want
      invariant tag.Valid() && tag.mem[..] == mem && tag.writes == old(tag.writes)
      invariant tag.faults == old(tag.faults)
      invariant avail0 <= avail <= total && avail % 4 == 0
      invariant Holds(area, avail, mem)
      decreases total - avail
    {
      var e, buf := tag.Read4(DATA_PAGE + avail / 4);
      if e != Ok {
        return e, avail;
      }
      var n := Min(total - avail, 16);
      PageIsArea(mem, avail);
      forall k | 0 <= k < n {
        area[avail + k] := buf[k];
      }
      Extend(area, avail, n, buf, mem);
      avail := avail + n;
    }
    err := Ok;
  }

  /** area starts with the first n bytes of the tag's data area. */
  ghost predicate Holds(area: array<byte>, n: nat, mem: seq<byte>)
    reads area
    requires |mem| > 0
  {
    n <= area.Length && forall i :: 0 <= i < n ==> area[i] == Cell(mem, 4 * DATA_PAGE + i)
  }

  lemma {:induction false} Extend(area: array<byte>, at: nat, n: nat, buf: seq<byte>, mem: seq<byte>)
    requires |mem| > 0 && n <= |buf| && at + n <= area.Length && Holds(area, at, mem)
    requires forall k :: 0 <= k < n ==> area[at + k] == buf[k] == Cell(mem, 4 * DATA_PAGE + (at + k))
    ensures Holds(area, at + n, mem)
  {
    forall i | 0 <= i < at + n
      ensures area[i] == Cell(mem, 4 * DATA_PAGE + i)
    {
      if i >= at {
        assert area[at + (i - at)] == buf[i - at];
      }
    }
  }

  lemma {:induction false} PageIsArea(mem: seq<byte>, at: nat)
    requires TagMemory(mem) && at % 4 == 0 && at <= NDEF_MAX
    ensures var page := PageBytes(mem, WirePage(DATA_PAGE + at / 4));
            forall k :: 0 <= k < 16 ==> page[k] == Cell(mem, 4 * DATA_PAGE + (at + k))
  {
    assert 4 * WirePage(DATA_PAGE + at / 4) as nat == 4 * DATA_PAGE + at;
    var page := PageBytes(mem, WirePage(DATA_PAGE + at / 4));
    forall k | 0 <= k < 16
      ensures page[k] == Cell(mem, 4 * DATA_PAGE + (at + k))
    {
    }
  }

  /** The CC and the NDEF TLV's value. */
  method ReadType2(tag: Tag, out: TagRead) returns (err: Err)
    requires tag.Valid() && out.ndef != tag.mem && out.ndef.Length == NDEF_MAX
    requires !out.present
    modifies tag, tag.mem, out, out.ndef
    ensures tag.Valid() && tag.mem[..] == old(tag.mem[..]) && tag.writes == old(tag.writes)
    ensures tag.faults >= old(tag.faults) && (err == Ok ==> tag.faults == old(tag.faults))
    ensures tag.faults == old(tag.faults) ==> out.Reports(err, ContentOf(tag.mem[..]))
    ensures tag.faults == old(tag.faults) && TagCc(tag.mem[..]).valid ==>
              && out.writable == TagCc(tag.mem[..]).writable
              && out.capacity == NdefCapacity(TagCc(tag.mem[..]).dataBytes)
  {
    hide AreaContent, Cell, NdefCapacity;
    var e, buf := tag.Read4(3);
    if e != Ok {
      return e;
    }
    ghost var mem := tag.mem[..];
    FirstRead(mem);
    var cc := ParseCc(buf);
    if !cc.valid {
      return Ok;
    }
    out.Describe(cc);
    if cc.dataBytes > NDEF_MAX {
      return NotSupported;
    }
    var avail := CopyFirst(out.ndef, cc.dataBytes, buf, mem);
    err := ReadTlv(tag, out, avail, cc.dataBytes);
  }

  /** The data area's first bytes came with the CC. */
  method CopyFirst(area: array<byte>, total: nat, buf: seq<byte>, ghost mem: seq<byte>) returns (avail: nat)
    requires |mem| > 0 && total <= area.Length && |buf| == 16
    requires forall k :: 4 <= k < 16 ==> buf[k] == Cell(mem, 4 * DATA_PAGE + (k - 4))
    modifies area
    ensures avail == Min(total, 12) && Holds(area, avail, mem)
  {
    avail := Min(total, 12);
    forall k | 0 <= k < avail {
      area[k] := buf[4 + k];
    }
    forall i | 0 <= i < avail
      ensures area[i] == Cell(mem, 4 * DATA_PAGE + i)
    {
      assert area[i] == buf[4 + i];
    }
  }

  /** The walk over a growing prefix of the data area, then the value moved to the front. */
  method ReadTlv(tag: Tag, out: TagRead, avail0: nat, total: nat) returns (err: Err)
    requires tag.Valid() && out.ndef != tag.mem && out.ndef.Length == NDEF_MAX && !out.present
    requires avail0 <= total <= NDEF_MAX && avail0 % 4 == 0 && total % 4 == 0
    requires Holds(out.ndef, avail0, tag.mem[..])
    modifies tag, tag.mem, out`ndefLen, out`present, out.ndef
    ensures tag.Valid() && tag.mem[..] == old(tag.mem[..]) && tag.writes == old(tag.writes)
    ensures tag.faults >= old(tag.faults) && (err == Ok ==> tag.faults == old(tag.faults))
    ensures tag.faults == old(tag.faults) ==> out.Reports(err, AreaContent(DataArea(tag.mem[..], total)))
  {
    ghost var mem := tag.mem[..];
    ghost var full := DataArea(mem, total);
    var area, avail := out.ndef, avail0;
    while true
      invariant tag.Valid() && tag.mem[..] == mem && tag.writes == old(tag.writes)
      invariant tag.faults == old(tag.faults) && !out.present
      invariant avail <= total && avail % 4 == 0 && Holds(area, avail, mem)
      decreases total - avail
    {
      assert area[..avail] <= full;
      LazyWalkRefines(area[..avail], full, 0);
      FoundFits(full, 0);
      var tlv := FindTlv(area, avail, total);
      match tlv {
        case More(need) =>
          var e;
          e, avail := Fill(tag, area, avail, need, total);
          if e != Ok {
            return e;
          }
        case Found(off, len) =>
          var e;
          e, avail := Fill(tag, area, avail, off + len, total);
          if e != Ok {
            return e;
          }
          MoveToFront(area, off, len, full);
          out.ndefLen := len;
          out.present := true;
          return Ok;
        case Bad =>
          return InvalidArg;
        case NoTlv =>
          return Ok;
      }
    }
  }

  method MoveToFront(area: array<byte>, off: nat, len: nat, ghost full: seq<byte>)
    requires off + len <= area.Length && off + len <= |full|
    requires forall i :: 0 <= i < off + len ==> area[i] == full[i]
    modifies area
    ensures area[..len] == full[off..off + len]
  {
    forall k | 0 <= k < len {
      area[k] := area[off + k];
    }
  }

  lemma {:induction false} FirstRead(mem: seq<byte>)
    requires TagMemory(mem)
    ensures ParseCc(PageBytes(mem, 3)) == TagCc(mem)
    ensures var page := PageBytes(mem, 3); forall k :: 4 <= k < 16 ==> page[k] == Cell(mem, 4 * DATA_PAGE + (k - 4))
  {
    hide Cells;
    var page := PageBytes(mem, 3);
    forall k | 0 <= k < 16
      ensures page[k] == Cell(mem, 12 + k) && (k < 4 ==> page[k] == mem[12..16][k])
    {
    }
    CcOfFour(page, mem[12..16]);
  }

  lemma CcOfFour(a: seq<byte>, b: seq<byte>)
    requires |a| >= 4 && |b| >= 4 && forall k :: 0 <= k < 4 ==> a[k] == b[k]
    ensures ParseCc(a) == ParseCc(b)
  {
  }

  lemma {:induction false} FoundFits(full: seq<byte>, pos: nat)
    ensures var r := Walk(full, |full|, pos); r.Found? ==> r.off + r.len <= |full|
    decreases if pos < |full| then |full| - pos else 0
  {
    if pos < |full| && BlockAt(full, |full|, pos).Skip? {
      FoundFits(full, BlockAt(full, |full|, pos).next);
    }
  }

  /** nfc_reader_read: GET_VERSION for SAK 0x00, then Type 2 content. Which tags are Type 2
      is the identification table's answer, taken as given. */
  method ReadTag(tag: Tag, sak: byte, typeTwo: bool, out: TagRead)
    requires tag.Valid() && out.ndef != tag.mem && out.ndef.Length == NDEF_MAX
    modifies tag, tag.mem, out, out.ndef
    ensures tag.Valid() && tag.mem[..] == old(tag.mem[..]) && tag.writes == old(tag.writes)
    ensures out.readErr != Ok ==> !out.present && out.ndefLen == 0 && forall k :: 0 <= k < NDEF_MAX ==> out.ndef[k] == 0
    ensures typeTwo && out.readErr == Ok ==> out.Reports(Ok, ContentOf(tag.mem[..]))
    ensures typeTwo && tag.faults == old(tag.faults) ==>
              if ContentOf(tag.mem[..]).Message? then out.Reports(out.readErr, ContentOf(tag.mem[..])) else !out.present
  {
    out.readErr, out.present, out.ndefLen, out.writable, out.capacity, out.pages := Ok, false, 0, false, 0, 0;
    if sak == 0 {
      var err, version := tag.Exchange([VERSION], 8);
      if !(err == Ok && |version| == 8) && err == Io {
        err := tag.Reselect(tag.uid);
      }
      out.readErr := if err == State then NotFound else err;
    }
    if out.readErr == Ok && typeTwo {
      var err := ReadType2(tag, out);
      out.readErr := err;
    }
    if out.readErr != Ok {
      out.present := false;
      out.ndefLen := 0;
      forall k | 0 <= k < NDEF_MAX {
        out.ndef[k] := 0;
      }
    }
  }

  // ---- Writing ---------------------------------------------------------------

  /** The page number of a WRITE is one byte: from 252 pages of TLV on it would wrap onto the
      UID and lock pages. Exactly the messages of at most 1003 bytes are safe, and callers
      keep theirs at or below 872 (components/stark_nfc/stark_nfc.c:322-325). */
  lemma {:induction false} PageNumberWraps(len: nat)
    requires len <= 0xFFFE
    ensures (forall p :: 0 <= p < TlvSize(len) / 4 ==> DataPage(p) >= DATA_PAGE) <==> len <= 1003
  {
    if len <= 1003 {
      assert TlvSize(len) / 4 <= 252;
    } else {
      assert TlvSize(len) / 4 > 252;
      assert DataPage(252) == 0;
    }
  }

  predicate Stored(mem: seq<byte>, msg: seq<byte>, n: nat)
    requires |msg| <= 0xFFFE
  {
    16 + n <= |mem| && forall i :: 0 <= i < n ==> mem[16 + i] == TlvByte(msg, i)
  }

  /** A tag that holds the stored image of msg reads back as exactly msg. */
  lemma {:induction false} StoredReadsBack(mem: seq<byte>, msg: seq<byte>)
    requires TagMemory(mem) && |msg| <= 0xFFFE
    requires TagCc(mem).valid && TlvSize(|msg|) <= TagCc(mem).dataBytes <= NDEF_MAX
    requires Stored(mem, msg, TlvSize(|msg|))
    ensures ContentOf(mem) == Message(msg)
  {
    var area := DataArea(mem, TagCc(mem).dataBytes);
    TlvByteIsImage(msg);
    var image := TlvBytes(msg);
    forall i | 0 <= i < |image|
      ensures area[i] == image[i]
    {
      assert Cell(mem, 16 + i) == mem[16 + i] == TlvByte(msg, i);
    }
    assert image <= area;
    ImageIsFound(msg, area);
  }

  /** nfc_writer_write: only the confirmed tag, only with a CC that grants writing, every page
      read back and compared. */
  method WriteMessage(tag: Tag, confirmed: seq<byte>, msg: seq<byte>) returns (err: Err, pages: nat)
    requires tag.Valid()
    modifies tag, tag.mem
    ensures tag.Valid() && old(tag.writes) <= tag.writes
    // Nothing is written to another tag, one that refuses writing, or one that is too small.
    ensures tag.writes != old(tag.writes) ==>
              var cc := TagCc(old(tag.mem[..]));
              confirmed == tag.uid && cc.valid && cc.writable && 0 < TlvSize(|msg|) <= cc.dataBytes
    // On every path, only pages from 4 up to the end of the CC's data area.
    ensures |msg| <= 1003 ==>
              forall k :: |old(tag.writes)| <= k < |tag.writes| ==>
                DATA_PAGE <= tag.writes[k] < DATA_PAGE + TagCc(old(tag.mem[..])).dataBytes / 4
    ensures |msg| <= 1003 ==> tag.mem[..16] == old(tag.mem[..16])
    ensures |msg| <= 1003 && err == Ok ==> pages == TlvSize(|msg|) / 4 && Stored(tag.mem[..], msg, TlvSize(|msg|))
    ensures |msg| <= NDEF_MAX && err == Ok && TagCc(tag.mem[..]).dataBytes <= NDEF_MAX ==>
              ContentOf(tag.mem[..]) == Message(msg)
  {
    hide TlvSize, ContentOf, Stored, Wrote;
    pages := 0;
    var cc;
    err, cc := Approve(tag, confirmed, |msg|);
    if err != Ok {
      return;
    }
    err, pages := StoreAndCheck(tag, msg, TlvSize(|msg|));
    WroteGrows(old(tag.writes), tag.writes, TlvSize(|msg|));
    if |msg| <= 1003 {
      WritesStayInArea(old(tag.writes), tag.writes, |msg|, cc.dataBytes);
      SameCc(old(tag.mem[..]), tag.mem[..]);
      if err == Ok && cc.dataBytes <= NDEF_MAX {
        StoredReadsBack(tag.mem[..], msg);
      }
    }
  }

  /** Everything that is checked before the first WRITE. */
  method Approve(tag: Tag, confirmed: seq<byte>, len: nat) returns (err: Err, cc: Cc)
    requires tag.Valid()
    modifies tag, tag.mem
    ensures tag.Valid() && tag.mem[..] == old(tag.mem[..]) && tag.writes == old(tag.writes)
    ensures err == Ok ==>
              && confirmed == tag.uid && cc == TagCc(tag.mem[..]) && cc.valid && cc.writable
              && len <= 0xFFFE && 0 < TlvSize(len) <= cc.dataBytes
  {
    hide TlvSize, TagCc, PageBytes;
    hide ParseCc;
    SizeIsPositive(len);
    cc := Cc(false, false, 0);
    err := tag.Reselect(confirmed);
    if err != Ok {
      return;
    }
    var buf;
    err, buf := tag.Read4(3);
    if err != Ok {
      return;
    }
    CcIsRead(tag.mem[..]);
    cc := ParseCc(buf);
    if !cc.valid || !cc.writable {
      return NotSupported, cc;
    }
    var n := TlvSize(len);
    if n == 0 || n > cc.dataBytes {
      return NoSpace, cc;
    }
  }

  lemma CcIsRead(mem: seq<byte>)
    requires TagMemory(mem)
    ensures WirePage(3) == 3 && ParseCc(PageBytes(mem, 3)) == TagCc(mem)
  {
    FirstRead(mem);
  }

  lemma SizeIsWhole(len: nat)
    ensures TlvSize(len) % 4 == 0 && (len <= 1003 ==> TlvSize(len) <= 1008)
  {
  }

  lemma SizeIsPositive(len: nat)
    ensures TlvSize(len) > 0 <==> len <= 0xFFFE
  {
  }

  /** The log of written pages only grows. */
  lemma WroteGrows(before: seq<nat>, after: seq<nat>, n: nat)
    requires Wrote(before, after, n)
    ensures before <= after
  {
  }

  lemma {:induction false} SameCc(a: seq<byte>, b: seq<byte>)
    requires TagMemory(a) && TagMemory(b) && a[..16] == b[..16]
    ensures TagCc(a) == TagCc(b)
  {
    assert a[12..16] == a[..16][12..16] == b[12..16];
  }

  /** `after` is `before` and the first pages of an n-byte TLV, in order. */
  ghost predicate Wrote(before: seq<nat>, after: seq<nat>, n: nat) {
    && before <= after
    && |after| - |before| <= n / 4
    && forall k :: |before| <= k < |after| ==> after[k] == DataPage(k - |before|)
  }

  lemma {:induction false} WritesStayInArea(before: seq<nat>, after: seq<nat>, len: nat, dataBytes: nat)
    requires len <= 1003 && TlvSize(len) <= dataBytes && Wrote(before, after, TlvSize(len))
    ensures forall k :: |before| <= k < |after| ==> DATA_PAGE <= after[k] < DATA_PAGE + dataBytes / 4
  {
    forall k | |before| <= k < |after|
      ensures DATA_PAGE <= after[k] < DATA_PAGE + dataBytes / 4
    {
      assert DataPage(k - |before|) == DATA_PAGE + (k - |before|);
    }
  }

  method StoreAndCheck(tag: Tag, msg: seq<byte>, n: nat) returns (err: Err, pages: nat)
    requires tag.Valid() && |msg| <= 0xFFFE && n == TlvSize(|msg|)
    modifies tag, tag.mem
    ensures tag.Valid() && Wrote(old(tag.writes), tag.writes, n)
    ensures |msg| <= 1003 ==> tag.mem[..16] == old(tag.mem[..16])
    ensures |msg| <= 1003 && err == Ok ==> pages == n / 4 && Stored(tag.mem[..], msg, n)
  {
    err, pages := WritePages(tag, msg, n);
    if err == Ok {
      err := ReadBack(tag, msg, n);
    }
  }

  /** One WRITE of a page of the TLV. */
  method WriteOne(tag: Tag, msg: seq<byte>, page: nat) returns (err: Err)
    requires tag.Valid() && |msg| <= 0xFFFE
    modifies tag, tag.mem
    ensures tag.Valid() && tag.writes == old(tag.writes) + [DataPage(page) as nat]
    ensures err == Ok ==> 4 * DataPage(page) as nat < tag.mem.Length
    ensures DataPage(page) >= DATA_PAGE ==> tag.mem[..16] == old(tag.mem[..16])
  {
    hide TlvByte, DataPage, PageBytes;
    var cmd := new byte[6];
    cmd[0], cmd[1] := WRITE, DataPage(page);
    TlvPage(msg, page, cmd, 2);
    var answer;
    err, answer := tag.Exchange(cmd[..], 0);
  }

  lemma NoneWrote(writes: seq<nat>, n: nat)
    ensures Wrote(writes, writes, n)
  {
  }

  lemma WroteMore(before: seq<nat>, after: seq<nat>, n: nat, page: nat)
    requires Wrote(before, after, n) && |after| == |before| + page && page < n / 4
    ensures Wrote(before, after + [DataPage(page) as nat], n)
  {
  }

  /** Up to 1003 bytes the page number does not wrap. */
  lemma {:induction false} PageIs(len: nat, page: nat)
    requires len <= 1003 && page < TlvSize(len) / 4
    ensures DataPage(page) as nat == DATA_PAGE + page
  {
    hide TlvSize;
    SizeIsWhole(len);
  }

  method WritePages(tag: Tag, msg: seq<byte>, n: nat) returns (err: Err, pages: nat)
    requires tag.Valid() && |msg| <= 0xFFFE && n == TlvSize(|msg|)
    modifies tag, tag.mem
    ensures tag.Valid() && Wrote(old(tag.writes), tag.writes, n)
    ensures |msg| <= 1003 ==> tag.mem[..16] == old(tag.mem[..16])
    ensures err == Ok ==> pages == n / 4 && (|msg| <= 1003 ==> 16 + n <= tag.mem.Length)
  {
    hide TlvSize, Wrote, DataPage;
    pages := 0;
    var page := 0;
    NoneWrote(tag.writes, n);
    SizeIsWhole(|msg|);
    while page < n / 4
      invariant page <= n / 4 && pages == page
      invariant tag.Valid() && Wrote(old(tag.writes), tag.writes, n)
      invariant |tag.writes| == |old(tag.writes)| + page
      invariant |msg| <= 1003 ==> tag.mem[..16] == old(tag.mem[..16])
      invariant |msg| <= 1003 && page > 0 ==> 4 * (DATA_PAGE + page - 1) < tag.mem.Length
    {
      WroteMore(old(tag.writes), tag.writes, n, page);
      if |msg| <= 1003 {
        PageIs(|msg|, page);
      }
      err := WriteOne(tag, msg, page);
      if err != Ok {
        return;
      }
      pages := pages + 1;
      page := page + 1;
    }
    err := Ok;
  }

  /** Reads the TLV back, four pages per READ, and compares it byte for byte. */
  method ReadBack(tag: Tag, msg: seq<byte>, n: nat) returns (err: Err)
    requires tag.Valid() && |msg| <= 0xFFFE && n == TlvSize(|msg|)
    modifies tag, tag.mem
    ensures tag.Valid() && tag.mem[..] == old(tag.mem[..]) && tag.writes == old(tag.writes)
    ensures err == Ok && |msg| <= 1003 && 16 + n <= tag.mem.Length ==> Stored(tag.mem[..], msg, n)
  {
    hide TlvByte, TlvSize, PageBytes, WirePage;
    SizeIsWhole(|msg|);
    var page := 0;
    while page < n / 4
      invariant tag.Valid()
      invariant tag.mem[..] == old(tag.mem[..]) && tag.writes == old(tag.writes)
      invariant |msg| <= 1003 && 16 + n <= tag.mem.Length ==>
                  forall i :: 0 <= i < Min(4 * page, n) ==> tag.mem[16 + i] == TlvByte(msg, i)
    {
      var e, buf := tag.Read4(DATA_PAGE + page);
      if e != Ok {
        return e;
      }
      var same := SamePages(msg, page, n, buf);
      if !same {
        return Io;
      }
      if |msg| <= 1003 && 16 + n <= tag.mem.Length {
        PagesMatch(tag.mem[..], msg, page, n, buf);
      }
      page := page + 4;
    }
    err := Ok;
  }

  /** What a READ of data pages returned is what is stored there. */
  lemma {:induction false} PagesMatch(mem: seq<byte>, msg: seq<byte>, page: nat, n: nat, buf: seq<byte>)
    requires |mem| > 0 && |msg| <= 0xFFFE && 16 + n <= |mem| && n <= 1008 && 4 * page < n
    requires buf == PageBytes(mem, DataPage(page))
    requires forall i :: 4 * page <= i < Min(4 * page + 16, n) ==> buf[i - 4 * page] == TlvByte(msg, i)
    ensures forall i :: 4 * page <= i < Min(4 * page + 16, n) ==> mem[16 + i] == TlvByte(msg, i)
  {
    hide TlvByte;
    forall i | 4 * page <= i < Min(4 * page + 16, n)
      ensures mem[16 + i] == TlvByte(msg, i)
    {
      assert 4 * DataPage(page) as nat == 16 + 4 * page;
      assert buf[i - 4 * page] == Cell(mem, 16 + i);
    }
  }

  method SamePages(msg: seq<byte>, page: nat, n: nat, buf: seq<byte>) returns (same: bool)
    requires |msg| <= 0xFFFE && n % 4 == 0 && page < n / 4 && |buf| == 16
    ensures same ==> forall i :: 4 * page <= i < Min(4 * page + 16, n) ==> buf[i - 4 * page] == TlvByte(msg, i)
  {
    var k := 0;
    while k < 4 && page + k < n / 4
      invariant 0 <= k <= 4 && page + k <= n / 4
      invariant forall i :: 4 * page <= i < 4 * page + 4 * k ==> buf[i - 4 * page] == TlvByte(msg, i)
    {
      var want := new byte[4];
      TlvPage(msg, page + k, want, 0);
      if buf[4 * k..4 * k + 4] != want[..] {
        return false;
      }
      forall i | 4 * (page + k) <= i < 4 * (page + k) + 4
        ensures buf[i - 4 * page] == TlvByte(msg, i)
      {
        var j := i - 4 * (page + k);
        assert buf[4 * k..4 * k + 4][j] == want[j];
      }
      k := k + 1;
    }
    same := true;
  }
}
