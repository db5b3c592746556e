/** The `.ir` text format (components/stark_ir/ir_raw.c). */
module IrRaw {
  import opened Stark
  import opened IrTiming
  import IrCodec

  const LINE_MAX := 1700
  const CARRIER_MIN := 20000
  const CARRIER_MAX := 60000
  const TEXT_MAX := 1800

  datatype Signal = Signal(timings: Timings, carrier: nat, frame: Frame)

  // ---- Writing ---------------------------------------------------------------

  function Digit(d: nat): char
    requires d < 16
  {
    "0123456789ABCDEF"[d]
  }

  function Dec(n: nat): (s: string)
    ensures s != ""
  {
    (if n < 10 then "" else Dec(n / 10)) + [Digit(n % 10)]
  }

  function Hex4(n: uint16): (s: string)
    ensures |s| == 4
  {
    [Digit(n / 0x1000), Digit(n / 0x100 % 0x10), Digit(n / 0x10 % 0x10), Digit(n % 0x10)]
  }

  function Name(p: Protocol): string {
    match p
    case Unknown => "RAW"
    case Nec => "NEC"
    case Necx => "NECX"
    case Rc5 => "RC5"
    case Rc6 => "RC6"
    case Sirc12 => "SIRC12"
    case Sirc15 => "SIRC15"
    case Sirc20 => "SIRC20"
  }

  function Listed(t: Timings): string {
    if t == [] then "" else Listed(t[..|t| - 1]) + " " + Dec(t[|t| - 1])
  }

  /** The lines before the carrier. */
  function Lines(f: Frame): seq<string> {
    ["protocol " + Name(f.protocol), "address 0x" + Hex4(f.address), "command 0x" + Hex4(f.command)]
    + (if f.toggle != 0 then ["toggle 1"] else []) + (if f.again then ["repeat 1"] else [])
  }

  function Joined(lines: seq<string>): string {
    if lines == [] then "" else lines[0] + "\n" + Joined(lines[1..])
  }

  function FirstLine(): string {
    "stark-ir 1"
  }

  function CarrierOf(hz: nat): string {
    "carrier " + Dec(hz)
  }

  function TimingsOf(t: Timings): string {
    "timings" + Listed(t)
  }

  /** All the lines of a signal's file. */
  function AllLines(s: Signal): seq<string> {
    [FirstLine()] + Lines(s.frame) + [CarrierOf(s.carrier), TimingsOf(s.timings)]
  }

  function Text(s: Signal): string {
    Joined(AllLines(s))
  }

  // ---- Reading ---------------------------------------------------------------

  predicate IsSpace(c: char) {
    c == ' ' || c == '\t' || c == '\r'
  }

  /** The position of the first character from `from` on that is (not) a space. */
  function Skip(s: string, from: nat, space: bool): (k: nat)
    requires from <= |s|
    ensures from <= k <= |s| && (k < |s| ==> IsSpace(s[k]) != space)
    ensures forall i :: from <= i < k ==> IsSpace(s[i]) == space
    decreases |s| - from
  {
    if from < |s| && IsSpace(s[from]) == space then Skip(s, from + 1, space) else from
  }

  function Tokens(s: string, from: nat): seq<string>
    requires from <= |s|
    decreases |s| - from
  {
    var a := Skip(s, from, true);
    if a == |s| then []
    else
      var b := Skip(s, a, false);
      [s[a..b]] + Tokens(s, b)
  }

  function DigitOf(c: char, base: nat): Option<nat> {
    if '0' <= c <= '9' then Some((c as int) - ('0' as int))
    else if base == 16 && 'a' <= c <= 'f' then Some((c as int) - ('a' as int) + 10)
    else if base == 16 && 'A' <= c <= 'F' then Some((c as int) - ('A' as int) + 10)
    else None
  }

  /** The value of all the digits; None as soon as one is bad or the value exceeds max. */
  function Value(s: string, base: nat, max: nat): (v: Option<nat>)
    ensures s != "" && v.Some? ==> v.value <= max
  {
    if s == "" then Some(0)
    else
      var n := |s| - 1;
      var v := Value(s[..n], base, max);
      var d := DigitOf(s[n], base);
      if v.None? || d.None? || v.value * base + d.value > max then None else Some(v.value * base + d.value)
  }

  predicate HasHexPrefix(s: string) {
    |s| > 2 && s[0] == '0' && (s[1] == 'x' || s[1] == 'X')
  }

  function Number(s: string, max: nat): Option<nat> {
    if HasHexPrefix(s) then Value(s[2..], 16, max) else Value(s, 10, max)
  }

  /** The durations of a timings line. */
  function DurationsOf(tokens: seq<string>): (r: Option<Timings>)
    ensures r.Some? ==> Durations(r.value) && |r.value| == |tokens|
  {
    if tokens == [] then Some([])
    else
      var n := |tokens| - 1;
      var t := DurationsOf(tokens[..n]);
      var d := Number(tokens[n], 0xFFFF);
      if t.None? || |t.value| == MAX_DURATIONS || d.None? || d.value == 0 then None
      else Some(t.value + [d.value])
  }

  /** What the lines so far say. */
  datatype Progress = Progress(header: bool, timings: Timings, carrier: Option<nat>)

  const Nothing := Progress(false, [], None)

  datatype Key = Header | TimingsKey | CarrierKey | OtherKey

  function KeyOf(token: string): Key {
    if token == "stark-ir" then Header
    else if token == "timings" then TimingsKey
    else if token == "carrier" then CarrierKey
    else OtherKey
  }

  /** What a line's tokens do; None when they break the format. */
  function Obeyed(st: Progress, tokens: seq<string>): Option<Progress> {
    if tokens == [] then Some(st)
    else if !st.header then
      if KeyOf(tokens[0]) == Header && |tokens| > 1 && Number(tokens[1], 0xFFFF) == Some(1)
      then Some(st.(header := true)) else None
    else if KeyOf(tokens[0]) == TimingsKey then
      match DurationsOf(tokens[1..])
      case Some(t) => Some(st.(timings := t))
      case None => None
    else if KeyOf(tokens[0]) == CarrierKey then
      if |tokens| == 1 then None
      else
        match Number(tokens[1], CARRIER_MAX)
        case Some(hz) => if hz < CARRIER_MIN then None else Some(st.(carrier := Some(hz)))
        case None => None
    else Some(st)
  }

  function Line(st: Progress, line: string): Option<Progress> {
    Obeyed(st, Tokens(line, 0))
  }

  /** The position of the first c from `from` on, or the end. */
  function Find(s: string, from: nat, c: char): (k: nat)
    requires from <= |s|
    ensures from <= k <= |s| && (k < |s| ==> s[k] == c) && forall i :: from <= i < k ==> s[i] != c
    decreases |s| - from
  {
    if from < |s| && s[from] != c then Find(s, from + 1, c) else from
  }

  function Read(st: Progress, text: string, from: nat): Option<Progress>
    requires from <= |text|
    decreases |text| - from
  {
    if from == |text| then Some(st)
    else
      var end := Find(text, from, '\n');
      var line := text[from..end];
      if |line| > LINE_MAX then None
      else
        match Line(st, line[..Find(line, 0, '#')])
        case None => None
        case Some(next) => Read(next, text, if end < |text| then end + 1 else end)
  }

  /** The signal a file describes; its frame is decoded from the timings. */
  function Parsed(text: string): Option<Signal> {
    match Read(Nothing, text, 0)
    case None => None
    case Some(st) =>
      if !st.header || st.timings == [] then None
      else
        var f := IrCodec.Decoded(st.timings);
        Some(Signal(st.timings, if st.carrier.Some? then st.carrier.value else IrCodec.Carrier(f.protocol), f))
  }

  // ---- Numbers ---------------------------------------------------------------

  predicate AllDigits(s: string) {
    forall k :: 0 <= k < |s| ==> '0' <= s[k] <= '9'
  }

  lemma {:induction false} DigitReads(d: nat)
    requires d < 16
    ensures d < 10 ==> '0' <= Digit(d) <= '9' && DigitOf(Digit(d), 10) == Some(d)
    ensures Digit(d) != '\n' && Digit(d) != '#' && !IsSpace(Digit(d))
  {
    assert d == 0 || d == 1 || d == 2 || d == 3 || d == 4 || d == 5 || d == 6 || d == 7 || d == 8 || d == 9 || d >= 10;
    assert d >= 10 ==> d == 10 || d == 11 || d == 12 || d == 13 || d == 14 || d == 15;
  }

  lemma {:induction false} DecIsDigits(n: nat)
    ensures AllDigits(Dec(n))
    decreases n
  {
    hide Digit;
    DigitReads(n % 10);
    if n >= 10 {
      DecIsDigits(n / 10);
    }
  }

  lemma ValueOfMore(s: string, c: char, base: nat, max: nat)
    ensures var v, d := Value(s, base, max), DigitOf(c, base);
            Value(s + [c], base, max) ==
            if v.None? || d.None? || v.value * base + d.value > max then None else Some(v.value * base + d.value)
    ensures Value("", base, max) == Some(0)
  {
    assert (s + [c])[..|s|] == s;
  }

  lemma {:induction false} DecReadsBack(n: nat, max: nat)
    requires n <= max
    ensures Value(Dec(n), 10, max) == Some(n)
    decreases n
  {
    var s := Dec(n);
    DigitReads(n % 10);
    if n < 10 {
      ValueOfMore("", Digit(n), 10, max);
      assert "" + [Digit(n)] == s;
    } else {
      DecReadsBack(n / 10, max);
      hide Digit, DigitOf, Value;
      ValueOfMore(Dec(n / 10), Digit(n % 10), 10, max);
      assert n / 10 * 10 + n % 10 == n;
    }
  }

  /** Reading a number that was written gives it back. */
  lemma {:induction false} NumberReadsBack(n: nat, max: nat)
    requires n <= max
    ensures Number(Dec(n), max) == Some(n)
  {
    DecReadsBack(n, max);
    DecIsDigits(n);
  }

  function Pow10(k: nat): nat {
    if k == 0 then 1 else 10 * Pow10(k - 1)
  }

  lemma {:induction false} DecLength(n: nat, k: nat)
    requires k > 0 && n < Pow10(k)
    ensures |Dec(n)| <= k
    decreases k
  {
    if n >= 10 {
      DecLength(n / 10, k - 1);
    }
  }

  lemma {:induction false} ListedLength(t: Timings)
    requires forall k :: 0 <= k < |t| ==> t[k] < 0x1_0000
    ensures |Listed(t)| <= 6 * |t|
    decreases |t|
  {
    if t != [] {
      ListedLength(t[..|t| - 1]);
      assert Pow10(5) == 100000;
      DecLength(t[|t| - 1], 5);
    }
  }

  // ---- Tokens ----------------------------------------------------------------

  predicate IsWord(s: string) {
    s != "" && forall k :: 0 <= k < |s| ==> !IsSpace(s[k])
  }

  lemma {:induction false} SkipTo(s: string, from: nat, space: bool, k: nat)
    requires from <= k <= |s| && (k < |s| ==> IsSpace(s[k]) != space)
    requires forall i :: from <= i < k ==> IsSpace(s[i]) == space
    ensures Skip(s, from, space) == k
  {
  }

  /** A word and what follows it. */
  lemma {:induction false} TokenAt(s: string, from: nat, a: nat, b: nat)
    requires from <= a < b <= |s| && (forall i :: from <= i < a ==> IsSpace(s[i]))
    requires (forall i :: a <= i < b ==> !IsSpace(s[i])) && (b < |s| ==> IsSpace(s[b]))
    ensures Tokens(s, from) == [s[a..b]] + Tokens(s, b)
  {
    SkipTo(s, from, true, a);
    SkipTo(s, a, false, b);
  }

  /** What comes before position `from` does not matter. */
  lemma {:induction false} TokensOfTail(x: string, s: string, from: nat)
    requires from <= |s|
    ensures Tokens(x + s, |x| + from) == Tokens(s, from)
    decreases |s| - from
  {
    hide Skip, Tokens, IsSpace;
    SkipsOfTail(x, s, from);
    TokensStep(s, from);
    TokensStep(x + s, |x| + from);
    var a := Skip(s, from, true);
    if a < |s| {
      var b := Skip(s, a, false);
      TailSlice(x, s, a, b);
      TokensOfTail(x, s, b);
    }
  }

  lemma TailSlice(x: string, s: string, a: nat, b: nat)
    requires a <= b <= |s|
    ensures (x + s)[|x| + a..|x| + b] == s[a..b]
  {
  }

  lemma TokensStep(s: string, from: nat)
    requires from <= |s|
    ensures var a := Skip(s, from, true);
            if a == |s| then Tokens(s, from) == []
            else
              var b := Skip(s, a, false);
              b > from && Tokens(s, from) == [s[a..b]] + Tokens(s, b)
  {
  }

  lemma {:induction false} SkipsOfTail(x: string, s: string, from: nat)
    requires from <= |s|
    ensures var a := Skip(s, from, true);
            Skip(x + s, |x| + from, true) == |x| + a && Skip(x + s, |x| + a, false) == |x| + Skip(s, a, false)
  {
    var t := x + s;
    assert forall i :: 0 <= i < |s| ==> t[|x| + i] == s[i];
    var a := Skip(s, from, true);
    SkipTo(t, |x| + from, true, |x| + a);
    SkipTo(t, |x| + a, false, |x| + Skip(s, a, false));
  }

  /** A line that is a key, a space and the rest. */
  lemma {:induction false} TokensOfKey(key: string, rest: string)
    requires IsWord(key)
    ensures Tokens(key + " " + rest, 0) == [key] + Tokens(rest, 0)
  {
    var s := key + " " + rest;
    TokenAt(s, 0, 0, |key|);
    assert s[0..|key|] == key;
    TokensOfTail(key + " ", rest, 0);
    assert IsSpace(s[|key|]);
    assert Skip(s, |key|, true) == Skip(s, |key| + 1, true);
  }

  lemma {:induction false} TokensOfWord(word: string)
    requires IsWord(word)
    ensures Tokens(word, 0) == [word]
  {
    TokenAt(word, 0, 0, |word|);
    assert word[0..|word|] == word;
  }

  /** Where the words of a longer line begin and end. */
  lemma {:induction false} SkipsOfMore(a: string, word: string, from: nat)
    requires from <= |a| && IsWord(word)
    ensures var s, i := a + " " + word, Skip(a, from, true);
            && Skip(s, from, true) == (if i == |a| then |a| + 1 else i)
            && Skip(s, i, false) == (if i == |a| then i else Skip(a, i, false))
            && Skip(s, |a| + 1, false) == |s|
  {
    var s, i := a + " " + word, Skip(a, from, true);
    assert s[|a|] == ' ' && forall k :: 0 <= k < |a| ==> s[k] == a[k];
    assert forall k :: |a| + 1 <= k < |s| ==> s[k] == word[k - |a| - 1];
    SkipTo(s, |a| + 1, false, |s|);
    if i == |a| {
      SkipTo(s, from, true, |a| + 1);
      SkipTo(s, i, false, i);
    } else {
      SkipTo(s, from, true, i);
      SkipTo(s, i, false, Skip(a, i, false));
    }
  }

  /** One more word at the end of a line. */
  lemma {:induction false} TokensOfMore(a: string, word: string, from: nat)
    requires from <= |a| && IsWord(word)
    ensures Tokens(a + " " + word, from) == Tokens(a, from) + [word]
    decreases |a| - from
  {
    hide Skip, IsSpace;
    var s := a + " " + word;
    SkipsOfMore(a, word, from);
    SkipTo(s, |s|, true, |s|);
    var i := Skip(a, from, true);
    if i == |a| {
      assert s[|a| + 1..|s|] == word;
      assert Tokens(s, |s|) == [];
    } else {
      var b := Skip(a, i, false);
      NotEmpty(a, i);
      assert s[i..b] == a[i..b];
      TokensOfMore(a, word, b);
    }
  }

  lemma NotEmpty(a: string, i: nat)
    requires i < |a| && !IsSpace(a[i])
    ensures Skip(a, i, false) > i
  {
  }

  function Decs(t: Timings): (r: seq<string>)
    ensures |r| == |t|
  {
    if t == [] then [] else Decs(t[..|t| - 1]) + [Dec(t[|t| - 1])]
  }

  lemma {:induction false} DecIsWord(n: nat)
    ensures IsWord(Dec(n)) && Plain(Dec(n))
  {
    DecIsDigits(n);
  }

  lemma OneMoreWord(key: string, list: string, word: string)
    ensures key + (list + " " + word) == key + list + " " + word
  {
  }

  lemma {:induction false} TokensOfListed(key: string, t: Timings)
    requires IsWord(key)
    ensures Tokens(key + Listed(t), 0) == [key] + Decs(t)
    decreases |t|
  {
    hide Dec, IsWord, Tokens;
    if t == [] {
      assert key + Listed(t) == key;
      TokensOfWord(key);
    } else {
      var n := |t| - 1;
      TokensOfListed(key, t[..n]);
      DecIsWord(t[n]);
      OneMoreWord(key, Listed(t[..n]), Dec(t[n]));
      TokensOfMore(key + Listed(t[..n]), Dec(t[n]), 0);
    }
  }

  lemma DurationsOfMore(done: seq<string>, token: string, t: Timings)
    requires DurationsOf(done) == Some(t)
    ensures var d := Number(token, 0xFFFF);
            DurationsOf(done + [token]) ==
            if |t| == MAX_DURATIONS || d.None? || d.value == 0 then None else Some(t + [d.value])
  {
    assert (done + [token])[..|done|] == done;
  }

  lemma {:induction false} DecsReadBack(t: Timings)
    requires Durations(t)
    ensures DurationsOf(Decs(t)) == Some(t)
    decreases |t|
  {
    if t != [] {
      var n := |t| - 1;
      assert Durations(t[..n]) && t == t[..n] + [t[n]];
      DecsReadBack(t[..n]);
      assert 0 < t[n] <= 0xFFFF;
      hide Durations, DurationsOf, Number, Dec;
      NumberReadsBack(t[n], 0xFFFF);
      DurationsOfMore(Decs(t[..n]), Dec(t[n]), t[..n]);
    }
  }

  // ---- Lines -----------------------------------------------------------------

  /** Text of one line, without a comment. */
  predicate Plain(s: string) {
    forall k :: 0 <= k < |s| ==> s[k] != '\n' && s[k] != '#'
  }

  function Folded(st: Progress, lines: seq<string>): Option<Progress>
    decreases |lines|
  {
    if lines == [] then Some(st)
    else
      match Line(st, lines[0])
      case None => None
      case Some(next) => Folded(next, lines[1..])
  }

  lemma {:induction false} FindTo(s: string, from: nat, c: char, k: nat)
    requires from <= k <= |s| && (k < |s| ==> s[k] == c) && forall i :: from <= i < k ==> s[i] != c
    ensures Find(s, from, c) == k
  {
  }

  lemma {:induction false} SameEnd(x: string, s: string, from: nat)
    requires from <= |s|
    ensures var end := Find(s, from, '\n');
            Find(x + s, |x| + from, '\n') == |x| + end && (x + s)[|x| + from..|x| + end] == s[from..end]
  {
    var end := Find(s, from, '\n');
    assert forall i :: from <= i < |s| ==> (x + s)[|x| + i] == s[i];
    FindTo(x + s, |x| + from, '\n', |x| + end);
  }

  lemma {:induction false} ReadOfTail(st: Progress, x: string, s: string, from: nat)
    requires from <= |s|
    ensures Read(st, x + s, |x| + from) == Read(st, s, from)
    decreases |s| - from
  {
    hide Line, Find;
    var t := x + s;
    if from < |s| {
      var end := Find(s, from, '\n');
      var line := s[from..end];
      SameEnd(x, s, from);
      var r := Line(st, line[..Find(line, 0, '#')]);
      if |line| <= LINE_MAX && r.Some? {
        ReadOfTail(r.value, x, s, if end < |s| then end + 1 else end);
      }
    }
  }

  lemma {:induction false} FirstOfText(line: string, rest: string)
    requires Plain(line)
    ensures var text := line + "\n" + rest;
            && Find(text, 0, '\n') == |line| && text[0..|line|] == line && |text| > |line|
            && line[..Find(line, 0, '#')] == line
  {
    var text := line + "\n" + rest;
    assert text[|line|] == '\n';
    assert forall i :: 0 <= i < |line| ==> text[i] == line[i];
    FindTo(text, 0, '\n', |line|);
    FindTo(line, 0, '#', |line|);
  }

  /** A text of plain lines is read line by line. */
  lemma {:induction false} ReadJoined(st: Progress, lines: seq<string>)
    requires forall k :: 0 <= k < |lines| ==> Plain(lines[k]) && |lines[k]| <= LINE_MAX
    ensures Read(st, Joined(lines), 0) == Folded(st, lines)
    decreases |lines|
  {
    if lines != [] {
      hide Line, Find, Plain;
      var line, rest := lines[0], Joined(lines[1..]);
      FirstOfText(line, rest);
      var next := Line(st, line);
      if next.Some? {
        ReadOfTail(next.value, line + "\n", rest, 0);
        ReadJoined(next.value, lines[1..]);
      }
    }
  }

  // ---- Writing, then reading -------------------------------------------------

  lemma {:induction false} FoldedInTwo(st: Progress, a: seq<string>, b: seq<string>)
    ensures Folded(st, a + b) == match Folded(st, a) case None => None case Some(next) => Folded(next, b)
    decreases |a|
  {
    if a == [] {
      assert a + b == b;
    } else {
      assert (a + b)[1..] == a[1..] + b;
      var next := Line(st, a[0]);
      hide Line;
      if next.Some? {
        FoldedInTwo(next.value, a[1..], b);
      }
    }
  }

  /** After the header a line with any other key says nothing. */
  lemma {:induction false} KeySaysNothing(st: Progress, key: string, rest: string)
    requires st.header && IsWord(key) && KeyOf(key) == OtherKey
    ensures Line(st, key + " " + rest) == Some(st)
  {
    hide Tokens, IsWord, KeyOf, Number, DurationsOf;
    TokensOfKey(key, rest);
  }

  lemma {:induction false} NamePlain(p: Protocol)
    ensures Plain(Name(p)) && |Name(p)| <= 6
  {
  }

  lemma {:induction false} HexPlain(n: uint16)
    ensures Plain(Hex4(n))
  {
    hide Digit;
    DigitReads(n / 0x1000);
    DigitReads(n / 0x100 % 0x10);
    DigitReads(n / 0x10 % 0x10);
    DigitReads(n % 0x10);
  }

  /** A line that changes nothing. */
  ghost predicate Idle(line: string, most: nat) {
    && Plain(line) && |line| <= most
    && forall st: Progress :: st.header ==> Line(st, line) == Some(st)
  }

  lemma {:induction false} KeyIsIdle(key: string, rest: string, most: nat)
    requires IsWord(key) && Plain(key) && Plain(rest) && KeyOf(key) == OtherKey
    requires |key| + 1 + |rest| <= most
    ensures Idle(key + " " + rest, most)
  {
    hide Line, IsWord, KeyOf;
    forall st: Progress | st.header
      ensures Line(st, key + " " + rest) == Some(st)
    {
      KeySaysNothing(st, key, rest);
    }
  }

  lemma {:induction false} LinesAreIdle(f: Frame)
    ensures forall k :: 0 <= k < |Lines(f)| ==> Idle(Lines(f)[k], 15)
    ensures |Joined(Lines(f))| <= 16 + 15 + 15 + 9 + 9
  {
    hide Idle, Joined, Name, Hex4;
    FieldsAreIdle(f);
    FlagsAreIdle();
    JoinedLength(Lines(f), f);
  }

  lemma {:induction false} FieldsAreIdle(f: Frame)
    ensures Idle("protocol " + Name(f.protocol), 15) && Idle("address 0x" + Hex4(f.address), 15)
    ensures Idle("command 0x" + Hex4(f.command), 15)
  {
    NamePlain(f.protocol);
    HexPlain(f.address);
    HexPlain(f.command);
    hide Name, Hex4;
    OtherKeys();
    KeyIsIdle("protocol", Name(f.protocol), 15);
    KeyIsIdle("address", "0x" + Hex4(f.address), 15);
    KeyIsIdle("command", "0x" + Hex4(f.command), 15);
    hide Line, Plain, Idle, KeyOf, IsWord;
    assert "protocol " + Name(f.protocol) == "protocol" + " " + Name(f.protocol);
    assert "address 0x" + Hex4(f.address) == "address" + " " + ("0x" + Hex4(f.address));
    assert "command 0x" + Hex4(f.command) == "command" + " " + ("0x" + Hex4(f.command));
  }

  lemma {:induction false} FlagsAreIdle()
    ensures Idle("toggle 1", 15) && Idle("repeat 1", 15)
  {
    OtherKeys();
    KeyIsIdle("toggle", "1", 15);
    KeyIsIdle("repeat", "1", 15);
    hide Line, Plain, Idle, KeyOf, IsWord;
    assert "toggle 1" == "toggle" + " " + "1" && "repeat 1" == "repeat" + " " + "1";
  }

  lemma {:induction false} JoinedLength(lines: seq<string>, f: Frame)
    requires lines == Lines(f)
    ensures |Joined(lines)| <= 16 + 15 + 15 + 9 + 9
  {
    hide Name, Hex4;
    hide Joined;
    NamePlain(f.protocol);
    var a := ["protocol " + Name(f.protocol), "address 0x" + Hex4(f.address), "command 0x" + Hex4(f.command)];
    var b := if f.toggle != 0 then ["toggle 1"] else [];
    var c := if f.again then ["repeat 1"] else [];
    JoinedInTwo(a + b, c);
    JoinedInTwo(a, b);
    JoinedOne("toggle 1");
    JoinedOne("repeat 1");
    assert a == [a[0]] + ([a[1]] + [a[2]]);
    JoinedInTwo([a[0]], [a[1]] + [a[2]]);
    JoinedInTwo([a[1]], [a[2]]);
    JoinedOne(a[0]);
    JoinedOne(a[1]);
    JoinedOne(a[2]);
    JoinedNone();
  }

  lemma JoinedNone()
    ensures Joined([]) == ""
  {
  }

  lemma JoinedOne(line: string)
    ensures Joined([line]) == line + "\n"
  {
    JoinedNone();
    assert [line][1..] == [];
  }

  lemma {:induction false} JoinedInTwo(a: seq<string>, b: seq<string>)
    ensures Joined(a + b) == Joined(a) + Joined(b)
    decreases |a|
  {
    if a == [] {
      assert a + b == b;
    } else {
      JoinedInTwo(a[1..], b);
      assert (a + b)[1..] == a[1..] + b;
    }
  }

  lemma {:induction false} IdleFolds(st: Progress, lines: seq<string>, most: nat)
    requires st.header && forall k :: 0 <= k < |lines| ==> Idle(lines[k], most)
    ensures Folded(st, lines) == Some(st)
    decreases |lines|
  {
    if lines != [] {
      assert Idle(lines[0], most);
      hide Line;
      IdleFolds(st, lines[1..], most);
    }
  }

  lemma OtherKeys()
    ensures KeyOf("protocol") == KeyOf("address") == KeyOf("command") == KeyOf("toggle") == KeyOf("repeat") == OtherKey
  {
  }

  lemma {:induction false} KeyAndNumber(st: Progress, key: string, n: nat)
    requires IsWord(key)
    requires if st.header then KeyOf(key) == CarrierKey && CARRIER_MIN <= n <= CARRIER_MAX
             else KeyOf(key) == Header && n == 1
    ensures Line(st, key + " " + Dec(n)) == Some(if st.header then st.(carrier := Some(n)) else st.(header := true))
  {
    hide Tokens, Number, KeyOf, DurationsOf, Dec, IsWord;
    DecIsWord(n);
    KeyAndWord(key, Dec(n));
    NumberReadsBack(n, if st.header then CARRIER_MAX else 0xFFFF);
  }

  lemma HeaderText()
    ensures IsWord("stark-ir") && KeyOf("stark-ir") == Header && Plain(FirstLine())
    ensures FirstLine() == "stark-ir" + " " + Dec(1)
  {
    assert Dec(1) == "1";
  }

  lemma {:induction false} HeaderLine()
    ensures Line(Nothing, FirstLine()) == Some(Nothing.(header := true)) && Plain(FirstLine())
  {
    hide Line, IsWord, KeyOf, Dec, Plain, FirstLine;
    HeaderText();
    KeyAndNumber(Nothing, "stark-ir", 1);
  }

  lemma CarrierText(hz: nat)
    ensures IsWord("carrier") && KeyOf("carrier") == CarrierKey && CarrierOf(hz) == "carrier" + " " + Dec(hz)
    ensures Plain(Dec(hz)) ==> Plain(CarrierOf(hz))
  {
    hide Dec;
  }

  lemma {:induction false} CarrierLine(st: Progress, hz: nat)
    requires st.header && CARRIER_MIN <= hz <= CARRIER_MAX
    ensures Line(st, CarrierOf(hz)) == Some(st.(carrier := Some(hz)))
    ensures Plain(CarrierOf(hz)) && |Dec(hz)| <= 5
  {
    hide Line, IsWord, KeyOf, Dec, Plain, CarrierOf;
    DecIsWord(hz);
    CarrierShort(hz);
    CarrierText(hz);
    KeyAndNumber(st, "carrier", hz);
  }

  lemma {:induction false} KeyAndWord(key: string, word: string)
    requires IsWord(key) && IsWord(word)
    ensures Tokens(key + " " + word, 0) == [key, word]
  {
    TokensOfKey(key, word);
    TokensOfWord(word);
  }

  lemma {:induction false} CarrierShort(hz: nat)
    requires hz <= CARRIER_MAX
    ensures |Dec(hz)| <= 5
  {
    assert Pow10(5) == 100000;
    DecLength(hz, 5);
  }

  lemma {:induction false} ListedPlain(t: Timings)
    ensures Plain(Listed(t))
    decreases |t|
  {
    if t != [] {
      ListedPlain(t[..|t| - 1]);
      DecIsWord(t[|t| - 1]);
      hide Dec;
    }
  }

  lemma {:induction false} KeyAndList(st: Progress, key: string, t: Timings)
    requires st.header && IsWord(key) && KeyOf(key) == TimingsKey && Durations(t)
    ensures Line(st, key + Listed(t)) == Some(st.(timings := t))
  {
    hide Tokens, Listed, DurationsOf, KeyOf, Number, Decs, Durations, IsWord;
    TokensOfListed(key, t);
    DecsReadBack(t);
    assert ([key] + Decs(t))[1..] == Decs(t);
  }

  lemma TimingsText(t: Timings)
    ensures IsWord("timings") && KeyOf("timings") == TimingsKey && TimingsOf(t) == "timings" + Listed(t)
    ensures |TimingsOf(t)| == 7 + |Listed(t)| && (Plain(Listed(t)) ==> Plain(TimingsOf(t)))
  {
    hide Listed;
  }

  lemma {:induction false} TimingsLine(st: Progress, t: Timings)
    requires st.header && Durations(t)
    ensures Line(st, TimingsOf(t)) == Some(st.(timings := t))
    ensures Plain(TimingsOf(t)) && |TimingsOf(t)| <= 7 + 6 * 256 <= LINE_MAX
  {
    hide Line, IsWord, KeyOf, Listed, Plain, TimingsOf;
    ListedPlain(t);
    ListedLength(t);
    TimingsText(t);
    KeyAndList(st, "timings", t);
  }

  predicate Writable(s: Signal) {
    Durations(s.timings) && s.timings != [] && CARRIER_MIN <= s.carrier <= CARRIER_MAX
  }

  lemma {:induction false} TextParts(s: Signal)
    ensures AllLines(s) == [FirstLine()] + (Lines(s.frame) + ([CarrierOf(s.carrier)] + [TimingsOf(s.timings)]))
    ensures Text(s) == Joined([FirstLine()]) + (Joined(Lines(s.frame)) +
                       (Joined([CarrierOf(s.carrier)]) + Joined([TimingsOf(s.timings)])))
  {
    hide Lines, FirstLine, CarrierOf, TimingsOf, Joined;
    var a, b, c, d := [FirstLine()], Lines(s.frame), [CarrierOf(s.carrier)], [TimingsOf(s.timings)];
    assert AllLines(s) == a + (b + (c + d));
    JoinedInTwo(a, b + (c + d));
    JoinedInTwo(b, c + d);
    JoinedInTwo(c, d);
  }

  lemma FixedLengths(s: Signal)
    ensures |FirstLine()| == 10 && |CarrierOf(s.carrier)| == 8 + |Dec(s.carrier)|
  {
    hide Dec;
  }

  lemma IdleIsPlain(line: string, most: nat)
    requires Idle(line, most)
    ensures Plain(line) && |line| <= most
  {
    hide Line;
  }

  /** A file always fits its buffer, and every line the parser's limit. */
  lemma {:induction false} TextFits(s: Signal)
    requires Writable(s)
    ensures |Text(s)| + 1 <= 1634 <= TEXT_MAX
    ensures forall k :: 0 <= k < |AllLines(s)| ==> Plain(AllLines(s)[k]) && |AllLines(s)[k]| <= LINE_MAX
  {
    hide Lines, FirstLine, CarrierOf, TimingsOf, Joined, Text, AllLines, Line, Plain, Idle, Dec;
    TextParts(s);
    LinesAreIdle(s.frame);
    HeaderLine();
    CarrierLine(Nothing.(header := true), s.carrier);
    TimingsLine(Nothing.(header := true), s.timings);
    JoinedOne(FirstLine());
    JoinedOne(CarrierOf(s.carrier));
    JoinedOne(TimingsOf(s.timings));
    FixedLengths(s);
    forall k | 0 <= k < |AllLines(s)|
      ensures Plain(AllLines(s)[k]) && |AllLines(s)[k]| <= LINE_MAX
    {
      InFour(FirstLine(), Lines(s.frame), CarrierOf(s.carrier), TimingsOf(s.timings), k);
      if 1 <= k <= |Lines(s.frame)| {
        IdleIsPlain(Lines(s.frame)[k - 1], 15);
      }
    }
  }

  lemma InFour(a: string, b: seq<string>, c: string, d: string, k: nat)
    requires k < |[a] + (b + ([c] + [d]))|
    ensures var line := ([a] + (b + ([c] + [d])))[k]; if 1 <= k <= |b| then line == b[k - 1] else line in {a, c, d}
  {
  }

  /** Printing, then parsing: the same timings and carrier, and the frame they decode to. */
  lemma {:induction false} FormatThenParse(s: Signal)
    requires Writable(s)
    ensures Parsed(Text(s)) == Some(Signal(s.timings, s.carrier, IrCodec.Decoded(s.timings)))
  {
    TextFits(s);
    TextParts(s);
    ReadJoined(Nothing, AllLines(s));
    LinesAreIdle(s.frame);
    HeaderLine();
    var st := Nothing.(header := true);
    var a, b, c, d := [FirstLine()], Lines(s.frame), [CarrierOf(s.carrier)], [TimingsOf(s.timings)];
    CarrierLine(st, s.carrier);
    TimingsLine(st.(carrier := Some(s.carrier)), s.timings);
    IdleFolds(st, b, 15);
    FoldedOne(Nothing, a[0]);
    FoldedOne(st, c[0]);
    FoldedOne(st.(carrier := Some(s.carrier)), d[0]);
    assert Text(s) == Joined(AllLines(s));
    hide Lines, FirstLine, CarrierOf, TimingsOf, Joined, Text, AllLines, Line, Plain, Folded, Read, Durations,
         IrCodec.Decoded, Idle;
    FoldedInTwo(Nothing, a, b + (c + d));
    FoldedInTwo(st, b, c + d);
    FoldedInTwo(st, c, d);
  }

  lemma FoldedOne(st: Progress, line: string)
    ensures Folded(st, [line]) == Line(st, line)
  {
    hide Line;
    assert [line][1..] == [];
  }

  // ---- Where the header stands -----------------------------------------------

  predicate IsHeader(tokens: seq<string>) {
    |tokens| > 1 && tokens[0] == "stark-ir" && Number(tokens[1], 0xFFFF) == Some(1)
  }

  /** The words of the line that begins at `from`, without its comment. */
  function LineTokens(text: string, from: nat): seq<string>
    requires from <= |text|
  {
    var line := text[from..Find(text, from, '\n')];
    Tokens(line[..Find(line, 0, '#')], 0)
  }

  /** The words of the first line from `from` on that has any. */
  function FirstTokens(text: string, from: nat): seq<string>
    requires from <= |text|
    decreases |text| - from
  {
    var end := Find(text, from, '\n');
    if LineTokens(text, from) != [] || end == |text| then LineTokens(text, from) else FirstTokens(text, end + 1)
  }

  lemma NoTokens()
    ensures Tokens("", 0) == []
  {
  }

  /** Until a line has a word, reading changes nothing; then that line must be the header. */
  lemma {:induction false} HeaderFirst(st: Progress, text: string, from: nat)
    requires from <= |text| && !st.header
    requires var r := Read(st, text, from); r.Some? && r.value.header
    ensures IsHeader(FirstTokens(text, from))
    decreases |text| - from
  {
    hide Tokens, Find, Number, DurationsOf;
    if from < |text| {
      var end := Find(text, from, '\n');
      var line := text[from..end];
      var next := Line(st, line[..Find(line, 0, '#')]);
      if LineTokens(text, from) == [] {
        assert next == Some(st);
        if end < |text| {
          HeaderFirst(st, text, end + 1);
        }
      }
    }
  }

  /** In an accepted file the first line with a word on it is the header; so the file's first line
      is the header exactly when it is neither blank nor a mere comment. */
  lemma {:induction false} HeaderIsFirstWord(text: string)
    requires Parsed(text).Some?
    ensures IsHeader(FirstTokens(text, 0))
    ensures IsHeader(LineTokens(text, 0)) <==> LineTokens(text, 0) != []
  {
    hide Read, Tokens, Number, IrCodec.Decoded;
    HeaderFirst(Nothing, text, 0);
  }

  /** A comment, or nothing but spaces, before anything else changes nothing about a file. */
  lemma {:induction false} BlankLineFirst(line: string, text: string)
    requires |line| <= LINE_MAX && '\n' !in line && Tokens(line[..Find(line, 0, '#')], 0) == []
    ensures Parsed(line + "\n" + text) == Parsed(text)
    ensures LineTokens(line + "\n" + text, 0) == []
  {
    hide Read, Tokens, Find, IrCodec.Decoded, IrCodec.Carrier;
    FirstLineIs(line, text);
    BlankIsSkipped(line + "\n" + text, |line|);
    ReadOfTail(Nothing, line + "\n", text, 0);
  }

  /** Reading goes on behind a first line without words. */
  lemma {:induction false} BlankIsSkipped(all: string, end: nat)
    requires end < |all| && Find(all, 0, '\n') == end && end <= LINE_MAX
    requires var line := all[0..end]; Tokens(line[..Find(line, 0, '#')], 0) == []
    ensures Read(Nothing, all, 0) == Read(Nothing, all, end + 1)
  {
    hide Tokens, Find, Number, DurationsOf;
  }

  lemma {:induction false} FirstLineIs(line: string, text: string)
    requires '\n' !in line
    ensures var all := line + "\n" + text;
            Find(all, 0, '\n') == |line| && all[0..|line|] == line && all == (line + "\n") + text
  {
    var all := line + "\n" + text;
    assert all[|line|] == '\n' && all[..|line|] == line;
    assert forall i :: 0 <= i < |line| ==> all[i] == line[i] && line[i] in line;
    FindTo(all, 0, '\n', |line|);
  }

  /** Every file the printer writes is still accepted, as the same signal, behind a comment,
      although its first line is then not the header. */
  lemma {:induction false} CommentFirst(s: Signal, comment: string)
    requires Writable(s) && |comment| < LINE_MAX && '\n' !in comment
    ensures var text := "#" + comment + "\n" + Text(s);
            && Parsed(text) == Some(Signal(s.timings, s.carrier, IrCodec.Decoded(s.timings)))
            && !IsHeader(LineTokens(text, 0))
  {
    hide Tokens, Find, Parsed, Text, IrCodec.Decoded, Writable;
    var line := "#" + comment;
    FindTo(line, 0, '#', 0);
    assert line[..0] == "";
    NoTokens();
    BlankLineFirst(line, Text(s));
    FormatThenParse(s);
  }

  // ---- The implementation ----------------------------------------------------

  /** All but the durations. */
  function Head(s: Signal): string {
    Joined([FirstLine()] + Lines(s.frame)) + (CarrierOf(s.carrier) + "\n") + "timings"
  }

  lemma {:induction false} TextIs(s: Signal)
    ensures Text(s) == Head(s) + Listed(s.timings) + "\n"
  {
    hide Lines, FirstLine, CarrierOf, Listed, Joined, Text, AllLines;
    TextParts(s);
    JoinedInTwo([FirstLine()], Lines(s.frame));
    JoinedOne(CarrierOf(s.carrier));
    JoinedOne(TimingsOf(s.timings));
  }

  /** Writes the file into a buffer of len characters, the final NUL included; 0 when it does
      not fit. */
  method Format(s: Signal, len: nat) returns (n: nat, out: string)
    ensures |s.timings| <= MAX_DURATIONS && |Text(s)| + 1 <= len ==> n == |Text(s)| && out == Text(s)
    ensures |s.timings| > MAX_DURATIONS || |Text(s)| + 1 > len ==> n == 0
  {
    hide Text, Head, Listed;
    TextIs(s);
    out := "";
    if len == 0 || |s.timings| > MAX_DURATIONS {
      return 0, out;
    }
    out := Head(s);
    if |out| >= len {
      return 0, out;
    }
    var fits := false;
    fits, out := AppendDurations(out, s.timings, len);
    if !fits || |out| + 2 > len {
      return 0, out;
    }
    out := out + "\n";
    n := |out|;
  }

  method AppendDurations(head: string, t: Timings, len: nat) returns (fits: bool, out: string)
    requires |head| < len
    ensures fits <==> |head| + |Listed(t)| < len
    ensures fits ==> out == head + Listed(t)
  {
    out := head;
    var i := 0;
    assert head + Listed(t[..0]) == head;
    while i < |t|
      invariant i <= |t| && out == head + Listed(t[..i]) && |out| < len
    {
      ListedGrows(t, i + 1);
      ListedOfMore(head, t, i);
      hide Dec, Listed;
      var piece := " " + Dec(t[i]);
      if |piece| >= len - |out| {
        return false, out;
      }
      out := out + piece;
      i := i + 1;
    }
    assert t[..i] == t;
    fits := true;
  }

  lemma {:induction false} ListedOfMore(head: string, t: Timings, i: nat)
    requires i < |t|
    ensures head + Listed(t[..i + 1]) == head + Listed(t[..i]) + (" " + Dec(t[i]))
  {
    hide Dec;
    assert t[..i + 1][..i] == t[..i];
  }

  lemma {:induction false} ListedGrows(t: Timings, n: nat)
    requires n <= |t|
    ensures |Listed(t[..n])| <= |Listed(t)|
    decreases |t|
  {
    if n == |t| {
      assert t[..n] == t;
    } else {
      ListedGrows(t[..|t| - 1], n);
      assert t[..|t| - 1][..n] == t[..n];
    }
  }

  method SkipChars(s: string, from: nat, space: bool) returns (k: nat)
    requires from <= |s|
    ensures k == Skip(s, from, space)
  {
    k := from;
    while k < |s| && IsSpace(s[k]) == space
      invariant from <= k <= |s| && forall i :: from <= i < k ==> IsSpace(s[i]) == space
    {
      k := k + 1;
    }
    SkipTo(s, from, space, k);
  }

  method FindChar(s: string, from: nat, c: char) returns (k: nat)
    requires from <= |s|
    ensures k == Find(s, from, c)
  {
    k := from;
    while k < |s| && s[k] != c
      invariant from <= k <= |s| && forall i :: from <= i < k ==> s[i] != c
    {
      k := k + 1;
    }
    FindTo(s, from, c, k);
  }

  /** The next token of the line and where the line goes on. */
  method Token(line: string, from: nat) returns (tok: Option<string>, next: nat)
    requires from <= |line|
    ensures next <= |line| && (tok.Some? ==> next > from)
    ensures Tokens(line, from) == if tok.Some? then [tok.value] + Tokens(line, next) else []
  {
    var a := SkipChars(line, from, true);
    if a == |line| {
      return None, a;
    }
    var b := SkipChars(line, a, false);
    NotEmpty(line, a);
    return Some(line[a..b]), b;
  }

  method ParseNumber(s: string, max: nat) returns (r: Option<nat>)
    ensures r == Number(s, max)
  {
    var base, digits := 10, s;
    if |s| > 2 && s[0] == '0' && (s[1] == 'x' || s[1] == 'X') {
      base, digits := 16, s[2..];
    }
    var v, i := 0, 0;
    while i < |digits|
      invariant i <= |digits| && Value(digits[..i], base, max) == Some(v)
    {
      assert digits[..i + 1][..i] == digits[..i];
      var d := DigitOf(digits[i], base);
      if d.None? || v * base + d.value > max {
        ValueFails(digits, i + 1, base, max);
        return None;
      }
      v := v * base + d.value;
      i := i + 1;
    }
    assert digits[..i] == digits;
    r := Some(v);
  }

  lemma {:induction false} ValueFails(s: string, n: nat, base: nat, max: nat)
    requires 0 < n <= |s| && Value(s[..n], base, max) == None
    ensures Value(s, base, max) == None
    decreases |s|
  {
    if n == |s| {
      assert s[..n] == s;
    } else {
      assert s[..|s| - 1][..n] == s[..n];
      ValueFails(s[..|s| - 1], n, base, max);
    }
  }

  /** The tokens from position `from` on are those already read and those from `at` on. */
  ghost predicate ReadUpTo(line: string, from: nat, done: seq<string>, at: nat) {
    from <= |line| && at <= |line| && Tokens(line, from) == done + Tokens(line, at)
  }

  lemma {:induction false} OneTokenRead(line: string, from: nat, done: seq<string>, at: nat, token: string, next: nat)
    requires ReadUpTo(line, from, done, at) && next <= |line| && Tokens(line, at) == [token] + Tokens(line, next)
    ensures ReadUpTo(line, from, done + [token], next) && (done + [token])[..|done|] == done
    ensures |done| < |Tokens(line, from)| && Tokens(line, from)[..|done| + 1] == done + [token]
  {
    hide Tokens;
    assert done + ([token] + Tokens(line, next)) == done + [token] + Tokens(line, next);
  }

  lemma {:induction false} AllTokensRead(line: string, from: nat, done: seq<string>, at: nat)
    requires ReadUpTo(line, from, done, at) && Tokens(line, at) == []
    ensures Tokens(line, from) == done
  {
  }

  lemma NoTokensRead(line: string, from: nat)
    requires from <= |line|
    ensures ReadUpTo(line, from, [], from)
  {
    hide Tokens;
  }

  method ParseDurations(line: string, from: nat) returns (r: Option<Timings>)
    requires from <= |line|
    ensures r == DurationsOf(Tokens(line, from))
  {
    assert DurationsOf([]) == Some([]);
    NoTokensRead(line, from);
    hide Number, Tokens, Durations, DurationsOf, ReadUpTo;
    ghost var done: seq<string> := [];
    var t: Timings := [];
    var at := from;
    while true
      invariant at <= |line| && ReadUpTo(line, from, done, at) && DurationsOf(done) == Some(t)
      decreases |line| - at
    {
      var tok, next := Token(line, at);
      if tok.None? {
        AllTokensRead(line, from, done, at);
        return Some(t);
      }
      OneTokenRead(line, from, done, at, tok.value, next);
      DurationsOfMore(done, tok.value, t);
      var d := ParseNumber(tok.value, 0xFFFF);
      if |t| == MAX_DURATIONS || d.None? || d.value == 0 {
        DurationsFail(Tokens(line, from), |done| + 1);
        return None;
      }
      t := t + [d.value];
      done := done + [tok.value];
      at := next;
    }
  }

  lemma {:induction false} DurationsFail(tokens: seq<string>, n: nat)
    requires n <= |tokens| && DurationsOf(tokens[..n]) == None
    ensures DurationsOf(tokens) == None
    decreases |tokens|
  {
    if n == |tokens| {
      assert tokens[..n] == tokens;
    } else {
      assert tokens[..|tokens| - 1][..n] == tokens[..n];
      DurationsFail(tokens[..|tokens| - 1], n);
    }
  }

  method ParseLine(st: Progress, line: string) returns (r: Option<Progress>)
    ensures r == Line(st, line)
  {
    hide Number, Tokens, KeyOf, DurationsOf;
    var key, at := Token(line, 0);
    if key.None? {
      return Some(st);
    }
    ghost var rest := Tokens(line, at);
    assert ([key.value] + rest)[1..] == rest;
    if !st.header {
      if KeyOf(key.value) != Header {
        return None;
      }
      var v, _ := Token(line, at);
      if v.None? {
        return None;
      }
      var version := ParseNumber(v.value, 0xFFFF);
      r := if version == Some(1) then Some(st.(header := true)) else None;
    } else if KeyOf(key.value) == TimingsKey {
      var t := ParseDurations(line, at);
      r := if t.Some? then Some(st.(timings := t.value)) else None;
    } else if KeyOf(key.value) == CarrierKey {
      var v, _ := Token(line, at);
      if v.None? {
        return None;
      }
      var hz := ParseNumber(v.value, CARRIER_MAX);
      r := if hz.None? || hz.value < CARRIER_MIN then None else Some(st.(carrier := Some(hz.value)));
    } else {
      r := Some(st);
    }
  }

  method Parse(text: string) returns (err: Err, s: Signal)
    ensures err == if Parsed(text).Some? then Ok else InvalidArg
    ensures err == Ok ==> s == Parsed(text).value
  {
    hide Line, Tokens, Number, IrCodec.Decoded;
    s := Signal([], 0, NoFrame);
    var st, at := Nothing, 0;
    while at < |text|
      invariant at <= |text| && Read(Nothing, text, 0) == Read(st, text, at)
    {
      var end := FindChar(text, at, '\n');
      if end - at > LINE_MAX {
        return InvalidArg, s;
      }
      var line := text[at..end];
      var hash := FindChar(line, 0, '#');
      var next := ParseLine(st, line[..hash]);
      if next.None? {
        return InvalidArg, s;
      }
      st := next.value;
      at := if end < |text| then end + 1 else end;
    }
    if !st.header || st.timings == [] {
      return InvalidArg, s;
    }
    var f := IrCodec.Decode(st.timings);
    s := Signal(st.timings, if st.carrier.Some? then st.carrier.value else IrCodec.Carrier(f.protocol), f);
    err := Ok;
  }
}
