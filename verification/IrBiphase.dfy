/** Bi-phase (Manchester) half-bits as run lengths (components/stark_ir/ir_biphase.c). */
module IrBiphase {
  import opened Stark
  import opened IrTiming
  import opened IrBits

  /** Half-bit levels; true is a mark. */
  type Halves = seq<bool>

  function Rep(b: bool, n: nat): (h: Halves)
    ensures |h| == n && forall k :: 0 <= k < n ==> h[k] == b
  {
    if n == 0 then [] else Rep(b, n - 1) + [b]
  }

  // ---- Runs ------------------------------------------------------------------

  /** The lengths of the runs of equal levels. */
  function Runs(h: Halves): (r: seq<nat>)
    ensures (r == [] <==> h == []) && |r| <= |h|
    ensures forall k :: 0 <= k < |r| ==> 0 < r[k] <= |h|
  {
    if h == [] then []
    else
      var n := |h| - 1;
      var r := Runs(h[..n]);
      if n > 0 && h[n] == h[n - 1] then r[..|r| - 1] + [r[|r| - 1] + 1] else r + [1]
  }

  function Level(first: bool, n: nat): bool {
    if n == 0 then first else !Level(first, n - 1)
  }

  /** The levels that runs of these lengths spell out. */
  function Levels(ks: seq<nat>, first: bool): Halves {
    if ks == [] then [] else Levels(ks[..|ks| - 1], first) + Rep(Level(first, |ks| - 1), ks[|ks| - 1])
  }

  lemma {:induction false} LevelsOfMore(ks: seq<nat>, k: nat, first: bool)
    ensures Levels(ks + [k], first) == Levels(ks, first) + Rep(Level(first, |ks|), k)
  {
    assert (ks + [k])[..|ks|] == ks;
  }

  /** One more level: the last run grows by it, or a new one starts. */
  function Grown(r: seq<nat>, same: bool): (q: seq<nat>)
    requires same ==> r != []
    ensures q != []
  {
    if same then r[..|r| - 1] + [r[|r| - 1] + 1] else r + [1]
  }

  lemma {:induction false} GrownJoins(r: seq<nat>, q: seq<nat>, same: bool)
    requires q != []
    ensures Grown(r + q, same) == r + Grown(q, same)
  {
    if same {
      var m := |q| - 1;
      assert (r + q)[..|r| + m] == r + q[..m];
    }
  }

  lemma GrownWithin(r: seq<nat>, same: bool, m: nat)
    requires same ==> r != []
    requires (forall k :: 0 <= k < |r| ==> r[k] <= m) && Grown(r, same)[|Grown(r, same)| - 1] <= m
    ensures forall k :: 0 <= k < |Grown(r, same)| ==> Grown(r, same)[k] <= m
  {
  }

  lemma {:induction false} RunsOfMore(h: Halves, b: bool)
    ensures Runs(h + [b]) == Grown(Runs(h), h != [] && h[|h| - 1] == b)
  {
    assert (h + [b])[..|h|] == h;
  }

  /** Runs r spell out h. */
  ghost predicate Spells(r: seq<nat>, h: Halves)
    requires h != []
  {
    r != [] && Levels(r, h[0]) == h && Level(h[0], |r| - 1) == h[|h| - 1]
  }

  /** Runs lose nothing: spelled out again they give the levels back. */
  lemma {:induction false} LevelsOfRuns(h: Halves)
    requires h != []
    ensures Spells(Runs(h), h)
    decreases |h|
  {
    hide Spells, Levels, Level;
    var g, b := h[..|h| - 1], h[|h| - 1];
    assert h == g + [b];
    if g == [] {
      OneLevel(b);
      assert h == [b];
    } else {
      LevelsOfRuns(g);
      SpellsMore(Runs(g), g, b);
      RunsOfMore(g, b);
    }
  }

  lemma {:induction false} SpellsMore(r: seq<nat>, g: Halves, b: bool)
    requires g != [] && Spells(r, g)
    ensures Spells(Grown(r, g[|g| - 1] == b), g + [b])
  {
    if b == g[|g| - 1] {
      LastRunGrows(r, g, g[0], b);
    } else {
      RunStarts(r, g, g[0], b);
    }
  }

  lemma {:induction false} LastRunGrows(r: seq<nat>, g: Halves, first: bool, b: bool)
    requires r != [] && Levels(r, first) == g && Level(first, |r| - 1) == b
    ensures var m := |r| - 1; Levels(r[..m] + [r[m] + 1], first) == g + [b]
  {
    hide Levels, Level, Rep;
    var m := |r| - 1;
    assert r == r[..m] + [r[m]];
    LevelsOfMore(r[..m], r[m], first);
    LevelsOfMore(r[..m], r[m] + 1, first);
    RepMore(b, r[m]);
    Regroup(Levels(r[..m], first), Rep(b, r[m]), [b]);
  }

  lemma Regroup(x: Halves, y: Halves, z: Halves)
    ensures x + y + z == x + (y + z)
  {
  }

  lemma {:induction false} RunStarts(r: seq<nat>, g: Halves, first: bool, b: bool)
    requires Levels(r, first) == g && Level(first, |r|) == b
    ensures Levels(r + [1], first) == g + [b]
  {
    LevelsOfMore(r, 1, first);
    RepOne(b);
  }

  lemma {:induction false} OneLevel(b: bool)
    ensures Runs([b]) == [1] && Spells([1], [b])
  {
    RunsOfMore([], b);
    LevelsOfMore([], 1, b);
    RepOne(b);
    assert [] + [b] == [b] && [] + [1] == [1];
  }

  lemma RepOne(b: bool)
    ensures Rep(b, 1) == [b]
  {
  }

  lemma RepMore(b: bool, k: nat)
    ensures Rep(b, k + 1) == Rep(b, k) + [b]
  {
  }

  /** The last run: that many equal levels at the end. */
  lemma {:induction false} LastRun(h: Halves)
    requires h != []
    ensures var k := Runs(h)[|Runs(h)| - 1]; k <= |h| && forall i :: |h| - k <= i < |h| ==> h[i] == h[|h| - 1]
    decreases |h|
  {
    var n := |h| - 1;
    if n > 0 {
      LastRun(h[..n]);
      if h[n] == h[n - 1] {
        var k := Runs(h)[|Runs(h)| - 1];
        forall i | |h| - k <= i < |h|
          ensures h[i] == h[|h| - 1]
        {
          assert i < n ==> h[..n][i] == h[..n][n - 1];
        }
      }
    }
  }

  /** No more than m equal levels in a row. */
  predicate RunsWithin(h: Halves, m: nat) {
    forall i :: 0 <= i && i + m < |h| ==> Breaks(h, i, m)
  }

  /** Some level among the m after position i differs from it. */
  predicate Breaks(h: Halves, i: int, m: nat)
    requires 0 <= i && i + m < |h|
  {
    exists j :: i < j <= i + m && h[j] != h[i]
  }

  lemma {:induction false} RunsAtMost(h: Halves, m: nat)
    requires RunsWithin(h, m) && m > 0
    ensures forall k :: 0 <= k < |Runs(h)| ==> Runs(h)[k] <= m
    decreases |h|
  {
    hide Runs, RunsWithin, Grown;
    NoRuns();
    if h != [] {
      var g, b := h[..|h| - 1], h[|h| - 1];
      WithinPart(h, m);
      RunsAtMost(g, m);
      LastRunAtMost(h, m);
      assert h == g + [b];
      RunsOfMore(g, b);
      GrownWithin(Runs(g), g != [] && g[|g| - 1] == b, m);
    }
  }

  lemma {:induction false} WithinPart(h: Halves, m: nat)
    requires RunsWithin(h, m) && h != []
    ensures RunsWithin(h[..|h| - 1], m)
  {
    var g := h[..|h| - 1];
    forall i | 0 <= i && i + m < |g|
      ensures Breaks(g, i, m)
    {
      assert Breaks(h, i, m);
    }
  }

  lemma {:induction false} LastRunAtMost(h: Halves, m: nat)
    requires RunsWithin(h, m) && m > 0 && h != []
    ensures Runs(h)[|Runs(h)| - 1] <= m
  {
    hide Runs;
    LastRun(h);
    var i := |h| - Runs(h)[|Runs(h)| - 1];
    assert i + m < |h| ==> Breaks(h, i, m);
  }

  lemma {:induction false} RunsWithinPart(h: Halves, a: nat, b: nat, m: nat)
    requires RunsWithin(h, m) && a <= b <= |h|
    ensures RunsWithin(h[a..b], m)
  {
    var g := h[a..b];
    forall i | 0 <= i && i + m < |g|
      ensures Breaks(g, i, m)
    {
      assert Breaks(h, a + i, m);
      var j :| a + i < j <= a + i + m && h[j] != h[a + i];
      assert g[j - a] == h[j] && g[i] == h[a + i];
    }
  }

  lemma {:induction false} RunAppends(h: Halves, b: bool, k: nat)
    requires k > 0 && (h != [] ==> h[|h| - 1] != b)
    ensures Runs(h + Rep(b, k)) == Runs(h) + [k]
    decreases k
  {
    hide Runs, Rep;
    if k == 1 {
      RepOne(b);
      RunsOfMore(h, b);
    } else {
      RunAppends(h, b, k - 1);
      RepMore(b, k - 1);
      var g := h + Rep(b, k - 1);
      RunsOfMore(g, b);
      assert g + [b] == h + Rep(b, k);
      assert (Runs(h) + [k - 1])[..|Runs(h)|] == Runs(h);
    }
  }

  // ---- Emitting --------------------------------------------------------------

  function SkipLead(h: Halves): Halves {
    if h != [] && !h[0] then SkipLead(h[1..]) else h
  }

  function DropTail(h: Halves): Halves {
    if h != [] && !h[|h| - 1] then DropTail(h[..|h| - 1]) else h
  }

  /** What a receiver sees: no spaces before the first or after the last mark. */
  function Visible(h: Halves): Halves {
    DropTail(SkipLead(h))
  }

  /** The length of k units. */
  function Times(k: nat, unit: nat): nat {
    k * unit
  }

  function Scaled(ks: seq<nat>, unit: nat): (t: Timings)
    ensures |t| == |ks|
  {
    if ks == [] then [] else Scaled(ks[..|ks| - 1], unit) + [Times(ks[|ks| - 1], unit)]
  }

  lemma {:induction false} ScaledAt(ks: seq<nat>, unit: nat, i: nat)
    requires i < |ks|
    ensures Scaled(ks, unit)[i] == Times(ks[i], unit)
    decreases |ks|
  {
    if i < |ks| - 1 {
      ScaledAt(ks[..|ks| - 1], unit, i);
    }
  }

  function Emitted(h: Halves, unit: nat): Timings {
    Scaled(Runs(Visible(h)), unit)
  }

  lemma {:induction false} LeadIs(h: Halves, n: nat)
    requires n <= |h| && (forall k :: 0 <= k < n ==> !h[k]) && (n < |h| ==> h[n])
    ensures SkipLead(h) == h[n..]
    decreases n
  {
    if n > 0 {
      LeadIs(h[1..], n - 1);
      assert h[1..][n - 1..] == h[n..];
    }
  }

  lemma {:induction false} TailIs(h: Halves, n: nat)
    requires n <= |h| && (forall k :: n <= k < |h| ==> !h[k]) && (n > 0 ==> h[n - 1])
    ensures DropTail(h) == h[..n]
    decreases |h|
  {
    if n < |h| {
      TailIs(h[..|h| - 1], n);
      assert h[..|h| - 1][..n] == h[..n];
    }
  }

  /** How long the run at position i is. */
  method RunLength(h: Halves, i: nat) returns (run: nat)
    requires i < |h|
    ensures 1 <= run && i + run <= |h| && SameUpTo(h, i, i + run)
    ensures i + run < |h| ==> h[i + run] != h[i]
  {
    run := 1;
    while i + run < |h| && h[i + run] == h[i]
      invariant 1 <= run && i + run <= |h| && SameUpTo(h, i, i + run)
    {
      run := run + 1;
    }
  }

  predicate SameUpTo(h: Halves, i: nat, end: nat) {
    i < end <= |h| && forall k :: i <= k < end ==> h[k] == h[i]
  }

  /** The runs of the levels from `lead` to `end`. */
  function EmittedTo(h: Halves, lead: nat, end: nat, unit: nat): (t: Timings)
    requires lead <= end <= |h|
    ensures |t| <= end - lead
  {
    Scaled(Runs(h[lead..end]), unit)
  }

  lemma {:induction false} EmitsMore(h: Halves, lead: nat, end: nat, run: nat, unit: nat)
    requires lead <= end && SameUpTo(h, end, end + run) && (end > lead ==> h[end - 1] != h[end])
    ensures EmittedTo(h, lead, end + run, unit) == EmittedTo(h, lead, end, unit) + [Times(run, unit)]
  {
    hide Runs, Scaled, Rep, Times;
    RunSlice(h, lead, end, run);
    RunAppends(h[lead..end], h[end], run);
    ScaledOfMore(Runs(h[lead..end]), run, unit);
  }

  lemma {:induction false} RunSlice(h: Halves, lead: nat, end: nat, run: nat)
    requires lead <= end && SameUpTo(h, end, end + run)
    ensures h[lead..end + run] == h[lead..end] + Rep(h[end], run) && run > 0
  {
  }

  /** The levels up to `end` end on a mark and only spaces follow. */
  ghost predicate Shown(h: Halves, lead: nat, end: nat) {
    lead <= end <= |h| && (forall k :: end <= k < |h| ==> !h[k]) && (end > lead ==> h[end - 1])
  }

  lemma {:induction false} ShownIs(h: Halves, lead: nat, end: nat, unit: nat)
    requires Shown(h, lead, end)
    ensures EmittedTo(h, lead, end, unit) == Scaled(Runs(DropTail(h[lead..])), unit)
  {
    hide DropTail, Runs, Scaled;
    var g := h[lead..];
    assert g[..end - lead] == h[lead..end];
    TailIs(g, end - lead);
  }

  lemma EndsShown(h: Halves, lead: nat, i: nat)
    requires lead <= i && SameUpTo(h, i, |h|) && (i > lead ==> h[i - 1] != h[i])
    ensures Shown(h, lead, if h[i] then |h| else i)
  {
  }

  lemma EmitsNone(h: Halves, lead: nat, unit: nat)
    requires lead <= |h|
    ensures EmittedTo(h, lead, lead, unit) == [] && (lead == |h| ==> Shown(h, lead, lead))
  {
  }

  /** Appends the merged half-bits. */
  method Emit(h: Halves, unit: nat, was: Timings) returns (t: Timings)
    requires |was| + |h| <= MAX_DURATIONS && unit > 0 && Times(|h|, unit) < 0x1_0000
    ensures t == was + Emitted(h, unit)
  {
    var lead := 0;
    while lead < |h| && !h[lead]
      invariant lead <= |h| && forall k :: 0 <= k < lead ==> !h[k]
    {
      lead := lead + 1;
    }
    LeadIs(h, lead);
    t := EmitRuns(h, lead, unit, was);
  }

  method EmitRuns(h: Halves, lead: nat, unit: nat, was: Timings) returns (t: Timings)
    requires |was| + |h| <= MAX_DURATIONS && unit > 0 && Times(|h|, unit) < 0x1_0000
    requires lead <= |h| && (lead < |h| ==> h[lead])
    ensures t == was + Scaled(Runs(DropTail(h[lead..])), unit)
  {
    hide So, Runs, Scaled, DropTail, Push, Shown, Times, SameUpTo, EmittedTo, Durations;
    NoneYet(h, lead, unit, was);
    ghost var end := lead;
    var i := lead;
    t := was;
    while i < |h|
      invariant lead <= end <= i <= |h| && (end == i || i == |h|)
      invariant So(h, lead, end, unit, was, t) && |t| <= |was| + (end - lead)
      invariant i < |h| && i > lead ==> h[i] != h[i - 1]
      invariant i == |h| ==> Shown(h, lead, end)
    {
      var run := RunLength(h, i);
      if i + run == |h| {
        EndsShown(h, lead, i);
      }
      var trailingSpace := !h[i] && i + run == |h|;
      if !trailingSpace {
        RunFits(run, |h|, unit);
        SoMore(h, lead, i, run, unit, was, t);
        t := Push(t, Times(run, unit));
        end := i + run;
      }
      LastOfRun(h, i, run);
      i := i + run;
    }
    SoIs(h, lead, end, unit, was, t);
  }

  lemma NoneYet(h: Halves, lead: nat, unit: nat, was: Timings)
    requires lead <= |h|
    ensures So(h, lead, lead, unit, was, was) && (lead == |h| ==> Shown(h, lead, lead))
  {
    EmitsNone(h, lead, unit);
    assert was + [] == was;
  }

  ghost predicate So(h: Halves, lead: nat, end: nat, unit: nat, was: Timings, t: Timings)
    requires lead <= end <= |h|
  {
    t == was + EmittedTo(h, lead, end, unit)
  }

  lemma {:induction false} SoMore(h: Halves, lead: nat, end: nat, run: nat, unit: nat, was: Timings, t: Timings)
    requires lead <= end && SameUpTo(h, end, end + run) && (end > lead ==> h[end - 1] != h[end])
    requires So(h, lead, end, unit, was, t)
    ensures So(h, lead, end + run, unit, was, t + [Times(run, unit)])
  {
    hide EmittedTo;
    EmitsMore(h, lead, end, run, unit);
  }

  lemma {:induction false} SoIs(h: Halves, lead: nat, end: nat, unit: nat, was: Timings, t: Timings)
    requires Shown(h, lead, end) && So(h, lead, end, unit, was, t)
    ensures t == was + Scaled(Runs(DropTail(h[lead..])), unit)
  {
    ShownIs(h, lead, end, unit);
  }

  lemma LastOfRun(h: Halves, i: nat, run: nat)
    requires SameUpTo(h, i, i + run)
    ensures h[i + run - 1] == h[i]
  {
  }

  lemma {:induction false} RunFits(run: nat, n: nat, unit: nat)
    requires 0 < run <= n && Times(n, unit) < 0x1_0000 && unit > 0
    ensures 0 < Times(run, unit) < 0x1_0000
  {
    MulGrows(run, n, unit);
    MulGrows(1, run, unit);
  }

  lemma {:induction false} ScaledOfMore(ks: seq<nat>, k: nat, unit: nat)
    ensures Scaled(ks + [k], unit) == Scaled(ks, unit) + [Times(k, unit)]
  {
    assert (ks + [k])[..|ks|] == ks;
  }

  // ---- Expanding -------------------------------------------------------------

  /** The nearest whole number of units. */
  function Units(d: nat, unit: nat): nat
    requires unit > 0
  {
    (d + unit / 2) / unit
  }

  /** The levels that the n durations from position `from` on spell out; None when one of them
      is no whole number of units within its window, or they are more than cap. */
  function Expanded(t: Timings, from: nat, n: nat, unit: nat, most: nat, first: bool, cap: nat): (r: Option<Halves>)
    requires from + n <= |t| && unit > 0
    ensures r.Some? ==> |r.value| <= cap
  {
    if n == 0 then Some([])
    else
      match Expanded(t, from, n - 1, unit, most, first, cap)
      case None => None
      case Some(h) =>
        var d := t[from + n - 1];
        var k := Units(d, unit);
        if k < 1 || k > most || !Match(d, Times(k, unit), TOL_PCT) || |h| + k > cap then None
        else Some(h + Rep(Level(first, n - 1), k))
  }

  /** Each duration is within its window and nearest to its number of units. */
  predicate Reads(t: Timings, from: nat, ks: seq<nat>, unit: nat, most: nat)
    requires from + |ks| <= |t| && unit > 0
  {
    forall i :: 0 <= i < |ks| ==>
      1 <= ks[i] <= most && Units(t[from + i], unit) == ks[i] && Match(t[from + i], Times(ks[i], unit), TOL_PCT)
  }

  lemma {:induction false} ExpandsTo(t: Timings, from: nat, ks: seq<nat>, unit: nat, most: nat, first: bool, cap: nat)
    requires from + |ks| <= |t| && unit > 0 && Reads(t, from, ks, unit, most) && |Levels(ks, first)| <= cap
    ensures Expanded(t, from, |ks|, unit, most, first, cap) == Some(Levels(ks, first))
    decreases |ks|
  {
    if ks != [] {
      ExpandsTo(t, from, ks[..|ks| - 1], unit, most, first, cap);
    }
  }

  /** What expanded successfully read every duration as its nearest number of units. */
  lemma {:induction false} ExpandedReads(t: Timings, from: nat, n: nat, unit: nat, most: nat, first: bool, cap: nat)
      returns (ks: seq<nat>)
    requires from + n <= |t| && unit > 0 && Expanded(t, from, n, unit, most, first, cap).Some?
    ensures |ks| == n && Reads(t, from, ks, unit, most)
    ensures Expanded(t, from, n, unit, most, first, cap) == Some(Levels(ks, first))
    decreases n
  {
    if n == 0 {
      ks := [];
    } else {
      var rest := ExpandedReads(t, from, n - 1, unit, most, first, cap);
      ks := rest + [Units(t[from + n - 1], unit)];
      LevelsOfMore(rest, Units(t[from + n - 1], unit), first);
    }
  }

  lemma ExpandedNone(t: Timings, from: nat, unit: nat, most: nat, first: bool, cap: nat)
    requires from <= |t| && unit > 0
    ensures Expanded(t, from, 0, unit, most, first, cap) == Some([]) && Level(first, 0) == first
  {
  }

  lemma ExpandedStep(t: Timings, from: nat, n: nat, unit: nat, most: nat, first: bool, cap: nat, h: Halves)
    requires from + n < |t| && unit > 0 && Expanded(t, from, n, unit, most, first, cap) == Some(h)
    ensures var d := t[from + n];
            var k := Units(d, unit);
            Expanded(t, from, n + 1, unit, most, first, cap) ==
            if k < 1 || k > most || !Match(d, Times(k, unit), TOL_PCT) || |h| + k > cap then None
            else Some(h + Rep(Level(first, n), k))
    ensures Level(first, n + 1) == !Level(first, n)
  {
  }

  method Append(was: Halves, level: bool, k: nat) returns (h: Halves)
    ensures h == was + Rep(level, k)
  {
    h := was;
    var j := 0;
    while j < k
      invariant j <= k && h == was + Rep(level, j)
    {
      h := h + [level];
      j := j + 1;
    }
  }

  /** Expands the durations from position `from` on. */
  method Expand(t: Timings, from: nat, unit: nat, most: nat, first: bool, cap: nat) returns (r: Option<Halves>)
    requires from <= |t| && unit > 0
    ensures r == Expanded(t, from, |t| - from, unit, most, first, cap)
  {
    hide Match, Times, Rep, Expanded, Level;
    ExpandedNone(t, from, unit, most, first, cap);
    var h, level, i := [], first, from;
    while i < |t|
      invariant from <= i <= |t| && Expanded(t, from, i - from, unit, most, first, cap) == Some(h)
      invariant level == Level(first, i - from)
    {
      var d := t[i];
      var k := (d + unit / 2) / unit;
      assert k == Units(d, unit);
      ExpandedStep(t, from, i - from, unit, most, first, cap, h);
      if k < 1 || k > most || !Match(d, Times(k, unit), TOL_PCT) || |h| + k > cap {
        ExpandFails(t, from, i - from, |t| - from, unit, most, first, cap);
        return None;
      }
      h := Append(h, level, k);
      level := !level;
      i := i + 1;
    }
    r := Some(h);
  }

  lemma {:induction false} ExpandFails(t: Timings, from: nat, k: nat, n: nat, unit: nat, most: nat, first: bool,
                                       cap: nat)
    requires k < n && from + n <= |t| && unit > 0 && Expanded(t, from, k + 1, unit, most, first, cap) == None
    ensures Expanded(t, from, n, unit, most, first, cap) == None
    decreases n
  {
    if n > k + 1 {
      ExpandFails(t, from, k, n - 1, unit, most, first, cap);
    }
  }

  // ---- Bits ------------------------------------------------------------------

  /** Each bit as two opposite half-bits; a one is mark then space when oneFirst. */
  function BitHalves(b: seq<bool>, oneFirst: bool): (h: Halves)
    ensures |h| == 2 * |b|
  {
    if b == [] then [] else BitHalves(b[..|b| - 1], oneFirst) + [b[|b| - 1] == oneFirst, b[|b| - 1] != oneFirst]
  }

  /** The n bits at position `from`; None when some pair is not a bi-phase bit. */
  function ReadHalves(h: Halves, from: nat, n: nat, oneFirst: bool): (r: Option<seq<bool>>)
    requires from + 2 * n <= |h|
    ensures r.Some? ==> |r.value| == n
  {
    if n == 0 then Some([])
    else
      match ReadHalves(h, from, n - 1, oneFirst)
      case None => None
      case Some(b) =>
        var x, y := h[from + 2 * n - 2], h[from + 2 * n - 1];
        if x == y then None else Some(b + [x == oneFirst])
  }

  predicate ShowsBit(h: Halves, from: nat, i: nat, x: bool, oneFirst: bool)
    requires from + 2 * i + 1 < |h|
  {
    h[from + 2 * i] == (x == oneFirst) && h[from + 2 * i + 1] == (x != oneFirst)
  }

  lemma {:induction false} ReadsBits(h: Halves, from: nat, n: nat, oneFirst: bool, b: seq<bool>)
    requires from + 2 * n <= |h| && |b| == n
    ensures ReadHalves(h, from, n, oneFirst) == Some(b) <==>
              forall i :: 0 <= i < n ==> ShowsBit(h, from, i, b[i], oneFirst)
    decreases n
  {
    if n > 0 {
      var c := b[..n - 1];
      ReadsBits(h, from, n - 1, oneFirst, c);
      assert b == c + [b[n - 1]];
      assert ShowsBit(h, from, n - 1, b[n - 1], oneFirst) <==>
             h[from + 2 * n - 2] != h[from + 2 * n - 1] && b[n - 1] == (h[from + 2 * n - 2] == oneFirst);
      if ReadHalves(h, from, n, oneFirst) == Some(b) {
        assert ReadHalves(h, from, n - 1, oneFirst) == Some(c);
      }
    }
  }

  /** Reading bits is the inverse of writing them, both ways. */
  lemma {:induction false} HalvesReadBack(h: Halves, from: nat, n: nat, oneFirst: bool, b: seq<bool>)
    requires from + 2 * n <= |h| && |b| == n
    ensures ReadHalves(h, from, n, oneFirst) == Some(b) <==> h[from..from + 2 * n] == BitHalves(b, oneFirst)
  {
    ReadsBits(h, from, n, oneFirst, b);
    hide ReadHalves, BitHalves;
    var s, u := h[from..from + 2 * n], BitHalves(b, oneFirst);
    forall i | 0 <= i < n
      ensures ShowsBit(h, from, i, b[i], oneFirst) <==> SamePair(s, u, i)
    {
      BitHalvesAt(b, oneFirst, i);
      assert s[2 * i] == h[from + 2 * i] && s[2 * i + 1] == h[from + 2 * i + 1];
    }
    hide ShowsBit;
    SameByPairs(s, u, n);
  }

  predicate SamePair(s: Halves, u: Halves, i: nat)
    requires 2 * i + 1 < |s| && 2 * i + 1 < |u|
  {
    s[2 * i] == u[2 * i] && s[2 * i + 1] == u[2 * i + 1]
  }

  lemma {:induction false} SameByPairs(s: Halves, u: Halves, n: nat)
    requires |s| == |u| == 2 * n
    ensures s == u <==> forall i :: 0 <= i < n ==> SamePair(s, u, i)
  {
    if forall i :: 0 <= i < n ==> SamePair(s, u, i) {
      forall k | 0 <= k < 2 * n
        ensures s[k] == u[k]
      {
        assert SamePair(s, u, k / 2);
      }
    }
  }

  lemma {:induction false} ReadHalvesFails(h: Halves, from: nat, k: nat, n: nat, oneFirst: bool)
    requires k < n && from + 2 * n <= |h| && ReadHalves(h, from, k + 1, oneFirst) == None
    ensures ReadHalves(h, from, n, oneFirst) == None
    decreases n
  {
    if n > k + 1 {
      ReadHalvesFails(h, from, k, n - 1, oneFirst);
    }
  }

  lemma {:induction false} BitHalvesAt(b: seq<bool>, oneFirst: bool, i: nat)
    requires i < |b|
    ensures BitHalves(b, oneFirst)[2 * i] == (b[i] == oneFirst)
            && BitHalves(b, oneFirst)[2 * i + 1] == (b[i] != oneFirst)
    decreases |b|
  {
    if i < |b| - 1 {
      BitHalvesAt(b[..|b| - 1], oneFirst, i);
    }
  }

  /** Of three half-bits in a row two make up a bit, so they are not all equal. */
  lemma {:induction false} NoThree(b: seq<bool>, oneFirst: bool, p: nat)
    requires p + 2 < 2 * |b|
    ensures Breaks(BitHalves(b, oneFirst), p, 2)
  {
    var h := BitHalves(b, oneFirst);
    var i := (p + 1) / 2;
    BitHalvesAt(b, oneFirst, i);
    assert p == 2 * i || p + 1 == 2 * i;
    assert h[p] != h[p + 1] || h[p] != h[p + 2];
  }

  /** Each number of positive units spells out levels that run back to it. */
  lemma {:induction false} RunsOfLevels(ks: seq<nat>, first: bool)
    requires forall k :: 0 <= k < |ks| ==> ks[k] > 0
    ensures Runs(Levels(ks, first)) == ks
    ensures ks != [] ==> Levels(ks, first) != [] && Levels(ks, first)[|Levels(ks, first)| - 1] == Level(first, |ks| - 1)
    decreases |ks|
  {
    if ks == [] {
      LevelsOfNone(first);
    } else {
      var n := |ks| - 1;
      var rest := ks[..n];
      RunsOfLevels(rest, first);
      assert ks == rest + [ks[n]];
      LevelsOfMore(rest, ks[n], first);
      LevelFlips(first, n);
      hide Runs, Levels, Rep, Level;
      RunAppends(Levels(rest, first), Level(first, n), ks[n]);
    }
  }

  lemma LevelsOfNone(first: bool)
    ensures Levels([], first) == [] && Runs([]) == []
  {
  }

  lemma LevelFlips(first: bool, n: nat)
    ensures n > 0 ==> Level(first, n) != Level(first, n - 1)
  {
  }

  /** Durations in their windows that are nearest to their own number of units expand to the
      visible half-bits. */
  lemma {:induction false} VisibleReadsBack(t: Timings, from: nat, v: Halves, unit: nat, most: nat, cap: nat)
    requires v != [] && v[0] && |v| <= cap && unit > 0 && from + |Runs(v)| == |t| && Reads(t, from, Runs(v), unit, most)
    ensures Expanded(t, from, |t| - from, unit, most, true, cap) == Some(v)
  {
    LevelsOfRuns(v);
    ExpandsTo(t, from, Runs(v), unit, most, true, cap);
  }

  /** And only those do. */
  lemma {:induction false} OnlyThoseRead(t: Timings, from: nat, v: Halves, unit: nat, most: nat, cap: nat)
    requires unit > 0 && from <= |t| && Expanded(t, from, |t| - from, unit, most, true, cap) == Some(v)
    ensures from + |Runs(v)| == |t| && Reads(t, from, Runs(v), unit, most)
  {
    var ks := ExpandedReads(t, from, |t| - from, unit, most, true, cap);
    RunsOfLevels(ks, true);
  }

  /** A frame's half-bits seen by a receiver: without the final space. */
  lemma {:induction false} VisibleIs(h: Halves, lead: nat)
    requires lead + 1 < |h| && h[lead] && (forall k :: 0 <= k < lead ==> !h[k]) && (h[|h| - 1] || h[|h| - 2])
    ensures Visible(h) == if h[|h| - 1] then h[lead..] else h[lead..|h| - 1]
  {
    LeadIs(h, lead);
    var g := h[lead..];
    if h[|h| - 1] {
      TailIs(g, |g|);
      assert g[..|g|] == g;
    } else {
      TailIs(g, |g| - 1);
      assert g[..|g| - 1] == h[lead..|h| - 1];
    }
  }

  lemma {:induction false} BitHalvesOfMore(b: seq<bool>, x: bool, oneFirst: bool)
    ensures BitHalves(b + [x], oneFirst) == BitHalves(b, oneFirst) + [x == oneFirst, x != oneFirst]
  {
    assert (b + [x])[..|b|] == b;
  }

  /** Reads n bits from position `from` on into a word, most significant bit first. */
  method ReadWord(h: Halves, from: nat, n: nat, oneFirst: bool) returns (ok: bool, word: nat)
    requires from + 2 * n <= |h|
    ensures var b := ReadHalves(h, from, n, oneFirst);
            (ok <==> b.Some?) && (ok ==> word == FromHigh(b.value))
  {
    hide FromHigh;
    FromHighOfNone();
    ok, word := true, 0;
    ghost var bits: seq<bool> := [];
    var i := 0;
    while i < n
      invariant i <= n && ReadHalves(h, from, i, oneFirst) == Some(bits) && word == FromHigh(bits)
    {
      var a, b := h[from + 2 * i], h[from + 2 * i + 1];
      if a == b {
        ReadHalvesFails(h, from, i, n, oneFirst);
        return false, 0;
      }
      FromHighOfMore(bits, a == oneFirst);
      word := 2 * word + Bit(a == oneFirst);
      bits := bits + [a == oneFirst];
      i := i + 1;
    }
  }

  /** Appends the half-bits of the low n bits of word, most significant first. */
  method AppendBits(was: Halves, word: nat, n: nat, oneFirst: bool) returns (h: Halves)
    ensures h == was + BitHalves(High(word, n), oneFirst)
  {
    hide BitHalves, High, Shr;
    h := was;
    var i := 0;
    NoBits(was, word, n, oneFirst);
    while i < n
      invariant i <= n && h == was + BitHalves(High(Shr(word, n - i), i), oneFirst)
    {
      var bit := Shr(word, n - 1 - i) % 2 == 1;
      NextBit(was, word, n - 1 - i, i, oneFirst);
      h := h + [bit == oneFirst, bit != oneFirst];
      i := i + 1;
    }
  }

  lemma NoBits(was: Halves, w: nat, n: nat, oneFirst: bool)
    ensures was + BitHalves(High(Shr(w, n), 0), oneFirst) == was && Shr(w, 0) == w
  {
  }

  lemma {:induction false} NextBit(was: Halves, w: nat, s: nat, i: nat, oneFirst: bool)
    ensures var bit := Shr(w, s) % 2 == 1;
            was + BitHalves(High(Shr(w, s), i + 1), oneFirst) ==
            was + BitHalves(High(Shr(w, s + 1), i), oneFirst) + [bit == oneFirst, bit != oneFirst]
  {
    hide BitHalves, High, Shr;
    var bit, b := Shr(w, s) % 2 == 1, High(Shr(w, s + 1), i);
    HighUnrolls(Shr(w, s), i);
    ShrUnrolls(w, s);
    BitHalvesOfMore(b, bit, oneFirst);
    Regroup(was, BitHalves(b, oneFirst), [bit == oneFirst, bit != oneFirst]);
  }

  lemma HighUnrolls(w: nat, i: nat)
    ensures High(w, i + 1) == High(w / 2, i) + [w % 2 == 1]
  {
  }

  lemma ShrUnrolls(w: nat, s: nat)
    ensures Shr(w, s + 1) == Shr(w, s) / 2
  {
  }

  /** A level change separates the runs before it from those after it. */
  lemma {:induction false} RunsSplit(a: Halves, b: Halves)
    requires a != [] && b != [] && a[|a| - 1] != b[0]
    ensures Runs(a + b) == Runs(a) + Runs(b)
    decreases |b|
  {
    hide Runs, Grown;
    var c, x := b[..|b| - 1], b[|b| - 1];
    assert b == c + [x];
    RunsOfMore(c, x);
    if c == [] {
      RunsOfMore(a, x);
      NoRuns();
    } else {
      RunsSplit(a, c);
      RunsOfMore(a + c, x);
      Regroup(a, c, [x]);
      GrownJoins(Runs(a), Runs(c), c[|c| - 1] == x);
    }
  }

  lemma NoRuns()
    ensures Runs([]) == [] && forall r: seq<nat> :: Grown(r, false) == r + [1]
  {
  }
}
