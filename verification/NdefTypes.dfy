/** The URI and Text record types (components/stark_nfc/ndef.c:165-297). Texts are byte
    strings; a C string is one without a zero byte. */
module NdefTypes {
  import opened Stark
  import opened Ndef

  datatype Got = Bad(err: Err) | Text(s: seq<byte>)

  predicate CString(s: seq<byte>) {
    0 !in s
  }

  /** The NFC Forum URI RTD's abbreviations for codes 0x00-0x23. */
  const PREFIXES: seq<string> := [
    "", "http://www.", "https://www.", "http://", "https://", "tel:", "mailto:", "ftp://anonymous:anonymous@",
    "ftp://ftp.", "ftps://", "sftp://", "smb://", "nfs://", "ftp://", "dav://", "news:", "telnet://", "imap:",
    "rtsp://", "urn:", "pop:", "sip:", "sips:", "tftp:", "btspp://", "btl2cap://", "btgoep://", "tcpobex://",
    "irdaobex://", "file://", "urn:epc:id:", "urn:epc:tag:", "urn:epc:pat:", "urn:epc:raw:", "urn:epc:", "urn:nfc:"
  ]

  function Ascii(s: string): (b: seq<byte>)
    ensures |b| == |s| && CString(b)
  {
    if s == "" then [] else [if 0 < s[0] as int < 0x100 then s[0] as int else 0x3F] + Ascii(s[1..])
  }

  /** Code 0 abbreviates nothing; the codes fit a byte. */
  predicate Table(t: seq<string>) {
    0 < |t| <= 0x100 && t[0] == ""
  }

  function Prefix(t: seq<string>, code: nat): (p: seq<byte>)
    requires code < |t|
    ensures CString(p)
  {
    Ascii(t[code])
  }

  /** Copies n bytes after `pos` bytes already in a buffer of cap, with room for the terminator. */
  function CopyStr(have: seq<byte>, cap: nat, src: seq<byte>): Got
    requires |have| <= cap
  {
    if 0 in src then Bad(InvalidArg)
    else if cap - |have| <= |src| then Bad(NoSpace)
    else Text(have + src)
  }

  // ---- URI -------------------------------------------------------------------

  const TYPE_URI: seq<byte> := [0x55]
  const TYPE_TEXT: seq<byte> := [0x54]

  function UriGet(t: seq<string>, r: Record, cap: nat): Got {
    if r.tnf != TNF_WELL_KNOWN || r.kind != TYPE_URI || cap == 0 || r.payload == [] ||
       r.payload[0] as nat >= |t| then Bad(InvalidArg)
    else
      match CopyStr([], cap, Prefix(t, r.payload[0]))
      case Bad(err) => Bad(err)
      case Text(s) => CopyStr(s, cap, r.payload[1..])
  }

  datatype Made = NotMade(err: Err) | Made(record: Record)

  predicate Matches(t: seq<string>, uri: seq<byte>, code: nat)
    requires code < |t|
  {
    Prefix(t, code) <= uri
  }

  /** A URI record that splits the URI at the code it names. */
  predicate IsUri(t: seq<string>, uri: seq<byte>, r: Record) {
    && r.tnf == TNF_WELL_KNOWN && r.kind == TYPE_URI && r.id == [] && r.payload != []
    && r.payload[0] as nat < |t| && uri == Prefix(t, r.payload[0]) + r.payload[1..]
  }

  /** Builds the record with the longest prefix code that matches. */
  method UriMake(t: seq<string>, uri: seq<byte>, cap: nat) returns (m: Made)
    requires Table(t) && CString(uri)
    ensures uri == [] ==> m == NotMade(InvalidArg)
    ensures m.Made? ==>
              && IsUri(t, uri, m.record) && |m.record.payload| <= Min(cap, NDEF_MAX)
              && forall c :: 0 <= c < |t| && Matches(t, uri, c) ==> |Prefix(t, c)| <= |Prefix(t, m.record.payload[0])|
    ensures uri != [] && m.NotMade? ==>
              m.err == NoSpace && forall c :: 0 <= c < |t| && Matches(t, uri, c) ==>
                |uri| - |Prefix(t, c)| + 1 > Min(cap, NDEF_MAX)
  {
    if uri == [] {
      return NotMade(InvalidArg);
    }
    var code, best := 0, 0;
    assert Prefix(t, 0) == [];
    var i := 1;
    while i < |t|
      invariant 1 <= i <= |t| && 0 <= code < i && best == |Prefix(t, code)| && Matches(t, uri, code)
      invariant forall c :: 0 <= c < i && Matches(t, uri, c) ==> |Prefix(t, c)| <= best
    {
      var n := |Prefix(t, i)|;
      if n > best && Matches(t, uri, i) {
        code, best := i, n;
      }
      i := i + 1;
    }
    var rest := |uri| - best;
    if rest + 1 > cap || rest + 1 > NDEF_MAX {
      return NotMade(NoSpace);
    }
    var first: byte := code;
    m := Made(Record(TNF_WELL_KNOWN, TYPE_URI, [], [first] + uri[best..]));
  }

  /** Whatever prefix code a URI was split at, reading the record gives the URI back, and only
      a buffer too small for it and its terminator is refused. */
  lemma {:induction false} UriReadsBack(t: seq<string>, r: Record, uri: seq<byte>, cap: nat)
    requires r.tnf == TNF_WELL_KNOWN && r.kind == TYPE_URI && r.payload != []
    requires r.payload[0] as nat < |t| && uri == Prefix(t, r.payload[0]) + r.payload[1..] && CString(uri)
    ensures UriGet(t, r, cap) == if cap == 0 then Bad(InvalidArg) else if cap <= |uri| then Bad(NoSpace) else Text(uri)
  {
    var p, rest := Prefix(t, r.payload[0]), r.payload[1..];
    assert [] + p == p;
    assert forall k :: 0 <= k < |rest| ==> rest[k] == uri[|p| + k];
  }

  /** A URI that can be read is a C string that fits, split at the code the record names. */
  lemma UriGetIsSplit(t: seq<string>, r: Record, cap: nat)
    requires UriGet(t, r, cap).Text?
    ensures var uri := UriGet(t, r, cap).s;
            && CString(uri) && |uri| < cap && uri == Prefix(t, r.payload[0]) + r.payload[1..]
            && Matches(t, uri, r.payload[0])
  {
  }

  // ---- Text ------------------------------------------------------------------

  datatype TextGot = BadText(err: Err) | LangText(lang: seq<byte>, text: seq<byte>)

  /** Status byte: bit 7 UTF-16, bit 6 reserved, then the language code's length. */
  function TextGet(r: Record, lcap: nat, tcap: nat): TextGot {
    if r.tnf != TNF_WELL_KNOWN || r.kind != TYPE_TEXT || lcap == 0 || tcap == 0 || r.payload == [] then
      BadText(InvalidArg)
    else if r.payload[0] >= 0x80 then BadText(NotSupported)
    else
      var langLen: nat := r.payload[0];
      if langLen >= 0x40 || langLen == 0 || langLen > |r.payload| - 1 then BadText(InvalidArg)
      else
        match CopyStr([], lcap, r.payload[1..1 + langLen])
        case Bad(err) => BadText(err)
        case Text(lang) =>
          match CopyStr([], tcap, r.payload[1 + langLen..])
          case Bad(err) => BadText(err)
          case Text(text) => LangText(lang, text)
  }

  function TextMake(lang: seq<byte>, text: seq<byte>, cap: nat): Made {
    if |lang| == 0 || |lang| > 0x3F then NotMade(InvalidArg)
    else if 1 + |lang| + |text| > cap || 1 + |lang| + |text| > NDEF_MAX then NotMade(NoSpace)
    else
      var first: byte := |lang|;
      Made(Record(TNF_WELL_KNOWN, TYPE_TEXT, [], [first] + lang + text))
  }

  /** Text records read back as written; what can be read is exactly what can be made. */
  lemma {:induction false} TextRoundTrip(lang: seq<byte>, text: seq<byte>, cap: nat, lcap: nat, tcap: nat)
    requires CString(lang) && CString(text) && lcap > |lang| && tcap > |text|
    ensures TextMake(lang, text, cap).Made? ==>
              TextGet(TextMake(lang, text, cap).record, lcap, tcap) == LangText(lang, text)
  {
    if TextMake(lang, text, cap).Made? {
      var p := TextMake(lang, text, cap).record.payload;
      assert p[1..1 + |lang|] == lang && p[1 + |lang|..] == text;
      assert [] + lang == lang && [] + text == text;
    }
  }

  lemma {:induction false} TextGetThenMake(r: Record, lcap: nat, tcap: nat)
    requires TextGet(r, lcap, tcap).LangText? && |r.payload| <= NDEF_MAX && r.id == []
    ensures var g := TextGet(r, lcap, tcap); TextMake(g.lang, g.text, NDEF_MAX) == Made(r)
  {
    var g := TextGet(r, lcap, tcap);
    assert r.payload == [r.payload[0]] + r.payload[1..1 + |g.lang|] + r.payload[1 + |g.lang|..];
  }

  // ---- Through a message -----------------------------------------------------

  /** What a record was made to say. */
  datatype Said = Uri(uri: seq<byte>) | Words(lang: seq<byte>, text: seq<byte>)

  predicate Says(r: Record, s: Said) {
    && |r.payload| <= NDEF_MAX
    && match s
       case Uri(uri) => CString(uri) && IsUri(PREFIXES, uri, r)
       case Words(lang, text) => CString(lang) && CString(text) && TextMake(lang, text, NDEF_MAX) == Made(r)
  }

  /** What reading the record into buffers of cap bytes gives. */
  predicate ReadAs(r: Record, s: Said, cap: nat) {
    match s
    case Uri(uri) =>
      UriGet(PREFIXES, r, cap) == if |uri| < cap then Text(uri) else Bad(if cap == 0 then InvalidArg else NoSpace)
    case Words(lang, text) => |lang| < cap && |text| < cap ==> TextGet(r, cap, cap) == LangText(lang, text)
  }

  /** One to eight URIs and texts made into records, encoded as a message, parsed, and read: each
      comes back as it was given. */
  lemma {:induction false} MadeRecordsTravel(rs: seq<Record>, said: seq<Said>, cap: nat)
    requires 1 <= |rs| == |said| <= MAX_RECORDS && forall i :: 0 <= i < |rs| ==> Says(rs[i], said[i])
    ensures Table(PREFIXES) && Sendable(rs)
    ensures var buf := EncodeFrom(rs, 0);
            var got := ParseFrom(buf, 0, []);
            && got.Message? && |got.records| == |rs|
            && forall i :: 0 <= i < |rs| ==>
                 ViewsInside(got.records[i], buf) && ReadAs(Content(buf, got.records[i]), said[i], cap)
  {
    hide EncodeFrom, ParseFrom, ReadAs;
    hide Says;
    forall i | 0 <= i < |rs|
      ensures Encodable(rs[i]) && ReadAs(rs[i], said[i], cap)
    {
      SaidReadsBack(rs[i], said[i], cap);
    }
    EncodeThenParse(rs);
  }

  lemma {:induction false} SaidReadsBack(r: Record, s: Said, cap: nat)
    requires Says(r, s)
    ensures Encodable(r) && ReadAs(r, s, cap)
  {
    match s {
      case Uri(uri) => UriReadsBack(PREFIXES, r, uri, cap);
      case Words(lang, text) =>
        if |lang| < cap && |text| < cap {
          TextRoundTrip(lang, text, NDEF_MAX, cap, cap);
        }
    }
  }
}
