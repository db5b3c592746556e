/** Timings as words of the RMT peripheral: two halves of a level and a 15-bit duration each
    (components/stark_ir/ir_symbols.c). */
module IrSymbols {
  import opened Stark
  import opened IrTiming

  const MAX_HALF := 0x7FFF

  /** One half of a word; level 1 is a mark. */
  datatype Half = Half(level: nat, us: nat)

  const EndMark := Half(0, 0)

  predicate Fits(x: Half) {
    x.level <= 1 && x.us <= MAX_HALF
  }

  function WordOf(a: Half, b: Half): nat {
    a.us + 0x8000 * a.level + 0x1_0000 * b.us + 0x8000_0000 * b.level
  }

  function FirstHalf(word: nat): Half {
    Half(word / 0x8000 % 2, word % 0x8000)
  }

  function SecondHalf(word: nat): Half {
    Half(word / 0x8000_0000, word / 0x1_0000 % 0x8000)
  }

  lemma {:induction false} HalvesOfWord(a: Half, b: Half)
    requires Fits(a) && Fits(b)
    ensures FirstHalf(WordOf(a, b)) == a && SecondHalf(WordOf(a, b)) == b && WordOf(a, b) < TWO32
  {
    var w := WordOf(a, b);
    assert w == a.us + 0x8000 * (a.level + 2 * (b.us + 0x8000 * b.level));
    assert w / 0x8000 == a.level + 2 * (b.us + 0x8000 * b.level);
    assert w / 0x1_0000 == b.us + 0x8000 * b.level;
    assert w / 0x8000_0000 == b.level;
  }

  function HalfAt(words: seq<nat>, i: nat): Half
    requires i < 2 * |words|
  {
    if i % 2 == 0 then FirstHalf(words[i / 2]) else SecondHalf(words[i / 2])
  }

  // ---- Packing ---------------------------------------------------------------

  /** A duration as halves of at most 32767 us. */
  function Split(level: nat, us: nat): (hs: seq<Half>)
    ensures hs != []
  {
    if us > MAX_HALF then [Half(level, MAX_HALF)] + Split(level, us - MAX_HALF) else [Half(level, us)]
  }

  function LevelAt(i: nat): nat {
    if i % 2 == 0 then 1 else 0
  }

  /** All the halves of a list of durations. */
  function HalvesOf(t: Timings): seq<Half> {
    if t == [] then [] else HalvesOf(t[..|t| - 1]) + Split(LevelAt(|t| - 1), t[|t| - 1])
  }

  /** The halves two by two; an odd one is followed by the end mark. */
  function Packed(hs: seq<Half>): (words: seq<nat>)
    ensures |words| == (|hs| + 1) / 2
  {
    if hs == [] then []
    else if |hs| == 1 then [WordOf(hs[0], EndMark)]
    else [WordOf(hs[0], hs[1])] + Packed(hs[2..])
  }

  predicate AllFit(hs: seq<Half>) {
    forall i :: 0 <= i < |hs| ==> Fits(hs[i])
  }

  predicate NoneEmpty(hs: seq<Half>) {
    forall i :: 0 <= i < |hs| ==> hs[i].us > 0
  }

  lemma {:induction false} PackedAt(hs: seq<Half>, i: nat)
    requires AllFit(hs) && i < 2 * |Packed(hs)|
    ensures HalfAt(Packed(hs), i) == if i < |hs| then hs[i] else EndMark
    decreases |hs|
  {
    hide WordOf, FirstHalf, SecondHalf;
    if |hs| == 1 {
      HalvesOfWord(hs[0], EndMark);
    } else {
      HalvesOfWord(hs[0], hs[1]);
      if i >= 2 {
        PackedAt(hs[2..], i - 2);
        HalfFurther(WordOf(hs[0], hs[1]), Packed(hs[2..]), i);
      }
    }
  }

  lemma {:induction false} HalfFurther(word: nat, rest: seq<nat>, i: nat)
    requires 2 <= i < 2 * |rest| + 2
    ensures HalfAt([word] + rest, i) == HalfAt(rest, i - 2)
  {
    hide FirstHalf, SecondHalf;
    assert (i - 2) / 2 == i / 2 - 1;
  }

  lemma {:induction false} SplitFits(level: nat, us: nat)
    requires level <= 1 && us > 0
    ensures AllFit(Split(level, us)) && NoneEmpty(Split(level, us))
    decreases us
  {
    if us > MAX_HALF {
      SplitFits(level, us - MAX_HALF);
    }
  }

  lemma {:induction false} HalvesFit(t: Timings)
    requires forall k :: 0 <= k < |t| ==> t[k] > 0
    ensures AllFit(HalvesOf(t)) && NoneEmpty(HalvesOf(t))
    decreases |t|
  {
    if t != [] {
      HalvesFit(t[..|t| - 1]);
      SplitFits(LevelAt(|t| - 1), t[|t| - 1]);
    }
  }

  // ---- Unpacking -------------------------------------------------------------

  /** The first n halves, up to the end mark. */
  function UpToEnd(words: seq<nat>, n: nat): (hs: seq<Half>)
    requires n <= 2 * |words|
    ensures |hs| <= n
  {
    if n == 0 then []
    else
      var hs := UpToEnd(words, n - 1);
      if |hs| == n - 1 && HalfAt(words, n - 1).us != 0 then hs + [HalfAt(words, n - 1)] else hs
  }

  /** Durations finished, and the run of equal levels still open. */
  datatype Open = Open(done: Timings, started: bool, level: nat, run: nat)

  const Closed := Open([], false, 0, 0)

  /** The open run becomes a duration; None when it is too long or they are too many. */
  function Flushed(o: Open): Option<Timings> {
    if o.run >= 0x1_0000 || |o.done| >= MAX_DURATIONS then None else Some(o.done + [o.run])
  }

  function Step(o: Open, x: Half): Option<Open> {
    if !o.started || x.level == o.level then Some(Open(o.done, true, x.level, o.run + x.us))
    else
      match Flushed(o)
      case None => None
      case Some(t) => Some(Open(t, true, x.level, x.us))
  }

  function Merged(o: Open, hs: seq<Half>): Option<Open>
    decreases |hs|
  {
    if hs == [] then Some(o)
    else
      match Step(o, hs[0])
      case None => None
      case Some(next) => Merged(next, hs[1..])
  }

  function Unpacked(words: seq<nat>): Option<Timings> {
    match Merged(Closed, UpToEnd(words, 2 * |words|))
    case None => None
    case Some(o) => if o.run == 0 then Some(o.done) else Flushed(o)
  }

  lemma {:induction false} MergedInTwo(o: Open, a: seq<Half>, b: seq<Half>)
    ensures Merged(o, a + b) == match Merged(o, a) case None => None case Some(p) => Merged(p, b)
    decreases |a|
  {
    if a == [] {
      assert a + b == b;
    } else {
      assert (a + b)[1..] == a[1..] + b && (a + b)[0] == a[0];
      match Step(o, a[0]) {
        case None =>
        case Some(next) => MergedInTwo(next, a[1..], b);
      }
    }
  }

  /** The halves of one duration add up to it again. */
  lemma {:induction false} SplitMerges(o: Open, us: nat)
    requires o.started
    ensures Merged(o, Split(o.level, us)) == Some(o.(run := o.run + us))
    decreases us
  {
    if us > MAX_HALF {
      SplitMerges(o.(run := o.run + MAX_HALF), us - MAX_HALF);
    } else {
      assert Split(o.level, us)[1..] == [];
    }
  }

  /** The first duration of a list, or one after a level change. */
  lemma {:induction false} SplitStarts(o: Open, level: nat, us: nat, next: Open)
    requires !o.started || level != o.level
    requires Step(o, Half(level, 0)) == Some(next)
    requires !o.started ==> o.run == 0
    ensures Merged(o, Split(level, us)) == Some(next.(run := us))
  {
    var hs := Split(level, us);
    var first: nat := if us > MAX_HALF then MAX_HALF else us;
    assert Step(o, hs[0]) == Some(next.(run := first));
    if us > MAX_HALF {
      SplitMerges(next.(run := first), us - MAX_HALF);
    }
  }

  /** After all the halves of t: its last duration is still open. */
  function OpenAfter(t: Timings): Open {
    if t == [] then Closed else Open(t[..|t| - 1], true, LevelAt(|t| - 1), t[|t| - 1])
  }

  lemma {:induction false} OpenStep(t: Timings)
    requires Durations(t) && t != []
    ensures var n := |t| - 1;
            var o, next := OpenAfter(t[..n]), Open(t[..n], true, LevelAt(n), 0);
            && (!o.started || LevelAt(n) != o.level) && (!o.started ==> o.run == 0)
            && Step(o, Half(LevelAt(n), 0)) == Some(next) && OpenAfter(t) == next.(run := t[n])
  {
    var n := |t| - 1;
    if n > 0 {
      assert t[..n][..n - 1] == t[..n - 1] && t[..n - 1] + [t[n - 1]] == t[..n];
    }
  }

  lemma {:induction false} HalvesMerge(t: Timings)
    requires Durations(t)
    ensures Merged(Closed, HalvesOf(t)) == Some(OpenAfter(t))
    decreases |t|
  {
    if t != [] {
      var n := |t| - 1;
      assert HalvesOf(t) == HalvesOf(t[..n]) + Split(LevelAt(n), t[n]);
      HalvesMerge(t[..n]);
      OpenStep(t);
      hide HalvesOf, Split, Merged, Step, OpenAfter, Durations, LevelAt;
      MergedInTwo(Closed, HalvesOf(t[..n]), Split(LevelAt(n), t[n]));
      SplitStarts(OpenAfter(t[..n]), LevelAt(n), t[n], Open(t[..n], true, LevelAt(n), 0));
    }
  }

  lemma {:induction false} ReadsAll(words: seq<nat>, hs: seq<Half>, n: nat)
    requires words == Packed(hs) && AllFit(hs) && NoneEmpty(hs) && n <= 2 * |words|
    ensures UpToEnd(words, n) == if n <= |hs| then hs[..n] else hs
    decreases n
  {
    hide HalfAt, Packed;
    if n > 0 {
      ReadsAll(words, hs, n - 1);
      PackedAt(hs, n - 1);
    }
  }

  /** Packing loses nothing: unpacking the words of any list of at most 256 durations gives the
      same list. */
  lemma {:induction false} UnpackThenPack(t: Timings)
    requires Durations(t)
    ensures Unpacked(Packed(HalvesOf(t))) == Some(t)
  {
    hide Packed, HalvesOf, Merged, UpToEnd, AllFit, NoneEmpty;
    var hs := HalvesOf(t);
    var words := Packed(hs);
    HalvesFit(t);
    ReadsAll(words, hs, 2 * |words|);
    assert hs[..|hs|] == hs;
    HalvesMerge(t);
    if t != [] {
      assert t[..|t| - 1] + [t[|t| - 1]] == t;
    }
  }

  // ---- The implementation ----------------------------------------------------

  lemma {:induction false} PackedOneMore(hs: seq<Half>, x: Half)
    ensures Packed(hs + [x]) == Worded(Packed(hs), x, |hs| % 2 == 1)
    decreases |hs|
  {
    hide WordOf, Worded;
    if |hs| < 2 {
      FirstWord(hs, x);
    } else {
      assert (hs + [x])[2..] == hs[2..] + [x];
      PackedOneMore(hs[2..], x);
      PackedUnrolls(hs, x);
      WordFurther(WordOf(hs[0], hs[1]), Packed(hs[2..]), x);
    }
  }

  lemma {:induction false} FirstWord(hs: seq<Half>, x: Half)
    requires |hs| < 2
    ensures Packed(hs + [x]) == Worded(Packed(hs), x, |hs| % 2 == 1)
  {
    if |hs| == 1 {
      assert hs + [x] == [hs[0], x] && [hs[0], x][2..] == [];
      assert Packed([hs[0], x]) == [WordOf(hs[0], x)] + Packed([]);
      assert Packed(hs) == [WordOf(hs[0], EndMark)];
    }
  }

  lemma PackedUnrolls(hs: seq<Half>, x: Half)
    requires |hs| >= 2
    ensures var first := WordOf(hs[0], hs[1]);
            Packed(hs) == [first] + Packed(hs[2..]) && Packed(hs + [x]) == [first] + Packed(hs[2..] + [x])
  {
    assert (hs + [x])[2..] == hs[2..] + [x];
  }

  /** A half added to the last word, or as a word of its own. */
  function Worded(words: seq<nat>, x: Half, half: bool): seq<nat>
    requires half ==> words != []
  {
    if half then words[..|words| - 1] + [words[|words| - 1] + 0x1_0000 * x.us + 0x8000_0000 * x.level]
    else words + [WordOf(x, EndMark)]
  }

  lemma {:induction false} WordFurther(first: nat, rest: seq<nat>, x: Half)
    ensures Worded([first] + rest, x, false) == [first] + Worded(rest, x, false)
    ensures rest != [] ==> Worded([first] + rest, x, true) == [first] + Worded(rest, x, true)
  {
    hide WordOf;
    if rest != [] {
      assert ([first] + rest)[..|rest|] == [first] + rest[..|rest| - 1];
    }
  }

  lemma OneHalf(level: nat, us: nat)
    requires us <= MAX_HALF
    ensures us % 0x8000 == us && WordOf(Half(level, us), EndMark) == us + 0x8000 * level
  {
  }

  /** Appends one half; fails when that needs a word more than there is room for. */
  method PutHalf(was: seq<nat>, half: nat, max: nat, level: nat, us: nat, ghost hs: seq<Half>)
      returns (ok: bool, words: seq<nat>, next: nat)
    requires was == Packed(hs) && half == |hs| % 2 && Fits(Half(level, us))
    ensures ok <==> half == 1 || |was| < max
    ensures ok ==> words == Packed(hs + [Half(level, us)]) && next == 1 - half
  {
    hide Packed, WordOf;
    PackedOneMore(hs, Half(level, us));
    OneHalf(level, us);
    words, next := was, half;
    if half == 0 {
      if |words| >= max {
        return false, words, next;
      }
      words := words + [us % 0x8000 + 0x8000 * level];
      next := 1;
    } else {
      var last := |words| - 1;
      words := words[..last] + [words[last] + 0x1_0000 * (us % 0x8000) + 0x8000_0000 * level];
      next := 0;
    }
    ok := true;
  }

  /** Packs the durations; fails exactly when the words do not fit. */
  method Pack(t: Timings, max: nat) returns (ok: bool, words: seq<nat>)
    ensures ok <==> |Packed(HalvesOf(t))| <= max
    ensures ok ==> words == Packed(HalvesOf(t))
  {
    words := [];
    var half, i := 0, 0;
    while i < |t|
      invariant i <= |t| && words == Packed(HalvesOf(t[..i])) && half == |HalvesOf(t[..i])| % 2 && |words| <= max
    {
      ok, words, half := PackOne(words, half, max, LevelAt(i), t[i], HalvesOf(t[..i]));
      assert t[..i + 1][..i] == t[..i];
      if !ok {
        PackedGrows(t, i + 1);
        return;
      }
      i := i + 1;
    }
    assert t[..i] == t;
    ok := true;
  }

  method PackOne(was: seq<nat>, wasHalf: nat, max: nat, level: nat, us: nat, ghost hs: seq<Half>)
      returns (ok: bool, words: seq<nat>, half: nat)
    requires was == Packed(hs) && wasHalf == |hs| % 2 && |was| <= max && level <= 1
    ensures ok <==> |Packed(hs + Split(level, us))| <= max
    ensures ok ==> words == Packed(hs + Split(level, us)) && half == |hs + Split(level, us)| % 2
  {
    hide Packed;
    ok, words, half := true, was, wasHalf;
    var rest: nat := us;
    ghost var sent := hs;
    while rest > MAX_HALF
      invariant words == Packed(sent) && half == |sent| % 2 && |words| <= max
      invariant sent + Split(level, rest) == hs + Split(level, us)
    {
      SplitOff(sent, level, rest);
      ok, words, half := PutHalf(words, half, max, level, MAX_HALF, sent);
      if !ok {
        return;
      }
      sent := sent + [Half(level, MAX_HALF)];
      rest := rest - MAX_HALF;
    }
    ok, words, half := PutHalf(words, half, max, level, rest, sent);
  }

  lemma {:induction false} SplitOff(sent: seq<Half>, level: nat, rest: nat)
    requires rest > MAX_HALF
    ensures sent + Split(level, rest) == sent + [Half(level, MAX_HALF)] + Split(level, rest - MAX_HALF)
    ensures |Split(level, rest)| >= 2
  {
  }

  lemma {:induction false} PackedGrows(t: Timings, n: nat)
    requires n <= |t|
    ensures |HalvesOf(t[..n])| <= |HalvesOf(t)|
    decreases |t|
  {
    if n < |t| {
      PackedGrows(t[..|t| - 1], n);
      assert t[..|t| - 1][..n] == t[..n];
    } else {
      assert t[..n] == t;
    }
  }

  /** Merges equal levels up to the end mark; fails when a duration gets too long or there are
      too many. */
  method Unpack(words: seq<nat>) returns (r: Option<Timings>)
    ensures r == Unpacked(words)
  {
    var t: Timings, started: bool, level: nat, run: nat := [], false, 0, 0;
    var i := 0;
    ghost var hs: seq<Half> := [];
    while i < 2 * |words|
      invariant i <= 2 * |words| && UpToEnd(words, i) == hs && |hs| == i
      invariant Merged(Closed, hs) == Some(Open(t, started, level, run))
    {
      var x := HalfAt(words, i);
      if x.us == 0 {
        EndsAt(words, i, 2 * |words|);
        break;
      }
      MergedInTwo(Closed, hs, [x]);
      hs := hs + [x];
      if !started {
        started, level := true, x.level;
      }
      if x.level != level {
        if run >= 0x1_0000 || |t| >= MAX_DURATIONS {
          NoMerge(words, i + 1, 2 * |words|);
          return None;
        }
        t := t + [run];
        level, run := x.level, 0;
      }
      run := run + x.us;
      i := i + 1;
    }
    if run != 0 {
      if run >= 0x1_0000 || |t| >= MAX_DURATIONS {
        return None;
      }
      t := t + [run];
    }
    r := Some(t);
  }

  lemma {:induction false} EndsAt(words: seq<nat>, i: nat, n: nat)
    requires i < n <= 2 * |words| && HalfAt(words, i).us == 0
    ensures UpToEnd(words, n) == UpToEnd(words, i)
    decreases n
  {
    if n > i + 1 {
      EndsAt(words, i, n - 1);
    }
  }

  /** A prefix that cannot be merged spoils the whole. */
  lemma {:induction false} NoMerge(words: seq<nat>, i: nat, n: nat)
    requires i <= n <= 2 * |words| && Merged(Closed, UpToEnd(words, i)) == None
    ensures Merged(Closed, UpToEnd(words, n)) == None
    decreases n
  {
    if n > i {
      NoMerge(words, i, n - 1);
      MergedInTwo(Closed, UpToEnd(words, n - 1), [HalfAt(words, n - 1)]);
    }
  }
}
