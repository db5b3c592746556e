/** What the damage set keeps over whole runs of additions since a clear
    (components/stark_ui/ui_damage.h: coverage, no overlap, and what the set is). */
module DamageRuns {
  import opened Stark
  import opened GfxTypes
  import opened Damage

  /** states[k] is the set after the first k additions to a cleared set. */
  ghost predicate Run(adds: seq<Rect>, states: seq<seq<Rect>>) {
    && |states| == |adds| + 1 && states[0] == []
    && (forall k :: 0 <= k < |states| ==> Solid(states[k]))
    && forall k :: 0 <= k < |adds| ==> Added(states[k], adds[k], states[k + 1])
  }

  predicate Spans(adds: seq<Rect>, hull: Box) {
    forall a <- adds :: !Empty(a) ==> Within(ToBox(a), hull)
  }

  /** After any run of additions that together span at most 32767 pixels each way, the set
      holds at most four rectangles, no two overlapping or sharing an edge, and covers every
      pixel ever added. */
  lemma {:induction false} RunStaysTidy(adds: seq<Rect>, states: seq<seq<Rect>>, hull: Box, k: nat)
    requires Run(adds, states) && Spans(adds, hull) && Fits(hull) && k <= |adds|
    ensures Tidy(states[k], hull)
    ensures forall m, x, y :: 0 <= m < k && Has(ToBox(adds[m]), x, y) ==> Covered(states[k], x, y)
    decreases k
  {
    if k > 0 {
      RunStaysTidy(adds, states, hull, k - 1);
      assert Added(states[k - 1], adds[k - 1], states[k]);
      assert adds[k - 1] in adds;
      AddKeepsTidy(states[k - 1], adds[k - 1], states[k], hull);
    }
  }

  /** Rectangles that do not join share no pixel, so no pixel is drawn twice. */
  lemma {:induction false} TidyDrawsOnce(s: seq<Rect>, hull: Box, i: nat, j: nat, x: int, y: int)
    requires Tidy(s, hull) && i < |s| && j < |s| && Has(ToBox(s[i]), x, y) && Has(ToBox(s[j]), x, y)
    ensures i == j
  {
    SharedPixelJoins(ToBox(s[i]), ToBox(s[j]), x, y);
    SharedPixelJoins(ToBox(s[j]), ToBox(s[i]), x, y);
  }

  lemma SharedPixelJoins(a: Box, b: Box, x: int, y: int)
    requires Has(a, x, y) && Has(b, x, y)
    ensures Joins(a, b)
  {
  }

  lemma InsideJoins(a: Box, b: Box)
    requires Within(a, b) && NonEmpty(a)
    ensures Joins(a, b)
  {
  }

  // ---- The set is the least joined closure -----------------------------------

  /** Boxes of which no two join. */
  ghost predicate Apart(t: set<Box>) {
    forall a, b :: a in t && b in t && a != b ==> !Joins(a, b)
  }

  ghost predicate Holds(t: set<Box>, b: Box) {
    exists u :: u in t && Within(b, u)
  }

  ghost predicate HoldsAll(t: set<Box>, s: seq<Rect>) {
    forall r <- s :: !Empty(r) ==> Holds(t, ToBox(r))
  }

  lemma JoinsGrows(a: Box, b: Box, t: Box, u: Box)
    requires Joins(a, b) && Within(a, t) && Within(b, u) && NonEmpty(a) && NonEmpty(b)
    ensures Joins(t, u)
  {
  }

  lemma {:induction false} AbsorbIsLeast(s: seq<Rect>, b: Box, i: nat, t: set<Box>)
    requires i <= |s| && Solid(s) && NonEmpty(b) && Apart(t) && HoldsAll(t, s) && Holds(t, b)
    ensures Holds(t, Absorb(s, b, i).box) && HoldsAll(t, Absorb(s, b, i).rest)
    decreases |s|, |s| - i
  {
    if i < |s| {
      if Joins(ToBox(s[i]), b) {
        assert !Empty(s[i]);
        var u :| u in t && Within(ToBox(s[i]), u);
        var v :| v in t && Within(b, v);
        JoinsGrows(ToBox(s[i]), b, u, v);
        assert u == v;
        assert Within(Union(ToBox(s[i]), b), u);
        RemoveKeeps(s, i);
        AbsorbIsLeast(RemoveAt(s, i), Union(ToBox(s[i]), b), 0, t);
      } else {
        AbsorbIsLeast(s, b, i + 1, t);
      }
    }
  }

  /** The addition did not have to merge for want of room. */
  predicate Roomy(s: seq<Rect>, a: Rect) {
    Empty(a) || |Absorb(s, ToBox(a), 0).rest| < DAMAGE_MAX
  }

  predicate RoomyRun(adds: seq<Rect>, states: seq<seq<Rect>>)
    requires |states| == |adds| + 1
  {
    forall k :: 0 <= k < |adds| ==> Roomy(states[k], adds[k])
  }

  ghost function BoxSet(s: seq<Rect>): set<Box> {
    set r | r in s :: ToBox(r)
  }

  /** s is apart, holds every added rectangle, and every such set of boxes holds all of s. */
  ghost predicate LeastClosure(adds: seq<Rect>, s: seq<Rect>) {
    && Solid(s) && Apart(BoxSet(s)) && HoldsAll(BoxSet(s), adds)
    && forall t: set<Box> :: Apart(t) && HoldsAll(t, adds) ==> HoldsAll(t, s)
  }

  lemma {:induction false} AddHoldsAll(s: seq<Rect>, a: Rect, next: seq<Rect>, hull: Box, adds: seq<Rect>)
    requires Tidy(s, hull) && Fits(hull) && (!Empty(a) ==> Within(ToBox(a), hull))
    requires Added(s, a, next) && Roomy(s, a) && HoldsAll(BoxSet(s), adds)
    ensures HoldsAll(BoxSet(next), adds + [a])
    ensures forall t: set<Box> :: Apart(t) && HoldsAll(t, s) && HoldsAll(t, [a]) ==> HoldsAll(t, next)
  {
    if Empty(a) {
      return;
    }
    var b := ToBox(a);
    AbsorbedIsSolid(s, b, 0);
    AbsorbSettles(s, b, 0);
    AbsorbThenPut(s, b, hull);
    var d := Absorb(s, b, 0);
    var last := ToRect(d.box);
    assert last in next && ToBox(last) in BoxSet(next);
    forall r | r in adds + [a] && !Empty(r)
      ensures Holds(BoxSet(next), ToBox(r))
    {
      if r in adds {
        var u :| u in BoxSet(s) && Within(ToBox(r), u);
        var q :| q in s && ToBox(q) == u;
        if q in d.rest {
          assert q in next && u in BoxSet(next);
        } else {
          assert Within(ToBox(r), ToBox(last));
        }
      }
    }
    forall t: set<Box> | Apart(t) && HoldsAll(t, s) && HoldsAll(t, [a])
      ensures HoldsAll(t, next)
    {
      assert a in [a];
      AbsorbIsLeast(s, b, 0, t);
    }
  }

  /** Until the first merge for want of room, the set is the least joined closure of what was
      added. */
  lemma {:induction false} RunIsLeastClosure(adds: seq<Rect>, states: seq<seq<Rect>>, hull: Box, k: nat)
    requires Run(adds, states) && RoomyRun(adds, states) && Spans(adds, hull) && Fits(hull) && k <= |adds|
    ensures LeastClosure(adds[..k], states[k])
    decreases k
  {
    hide Added, Tidy, Joins, Within, Roomy, Fits, HoldsAll, Apart, BoxSet;
    RunStaysTidy(adds, states, hull, k);
    TidyIsApart(states[k], hull);
    if k == 0 {
      NothingHeld();
    } else {
      RunStaysTidy(adds, states, hull, k - 1);
      RunIsLeastClosure(adds, states, hull, k - 1);
      var s, a, next := states[k - 1], adds[k - 1], states[k];
      assert Added(s, a, next) && Roomy(s, a) && a in adds;
      AddHoldsAll(s, a, next, hull, adds[..k - 1]);
      assert adds[..k] == adds[..k - 1] + [a];
      forall t: set<Box> | Apart(t) && HoldsAll(t, adds[..k])
        ensures HoldsAll(t, next)
      {
        HoldsSplit(t, adds[..k - 1], a);
      }
    }
  }

  lemma NothingHeld()
    ensures forall t: set<Box> :: HoldsAll(t, [])
  {
  }

  lemma {:induction false} HoldsSplit(t: set<Box>, adds: seq<Rect>, a: Rect)
    requires HoldsAll(t, adds + [a])
    ensures HoldsAll(t, adds) && HoldsAll(t, [a])
  {
    assert a in adds + [a];
    assert forall r <- adds :: r in adds + [a];
  }

  lemma {:induction false} TidyIsApart(s: seq<Rect>, hull: Box)
    requires Tidy(s, hull)
    ensures Apart(BoxSet(s))
  {
    forall a, b | a in BoxSet(s) && b in BoxSet(s) && a != b
      ensures !Joins(a, b)
    {
      var i :| 0 <= i < |s| && ToBox(s[i]) == a;
      var j :| 0 <= j < |s| && ToBox(s[j]) == b;
      if i < j {
        assert !Joins(ToBox(s[i]), ToBox(s[j]));
      } else {
        assert !Joins(ToBox(s[j]), ToBox(s[i]));
      }
    }
  }

  /** Two least closures of the same rectangles are the same set. */
  lemma {:induction false} LeastClosureIsUnique(adds: seq<Rect>, more: seq<Rect>, s: seq<Rect>, t: seq<Rect>)
    requires LeastClosure(adds, s) && LeastClosure(more, t)
    requires forall a :: a in adds <==> a in more
    ensures BoxSet(s) == BoxSet(t)
  {
    assert HoldsAll(BoxSet(t), adds) && HoldsAll(BoxSet(s), more);
    ClosureInside(s, t);
    ClosureInside(t, s);
  }

  lemma {:induction false} ClosureInside(s: seq<Rect>, t: seq<Rect>)
    requires Solid(s) && Solid(t) && Apart(BoxSet(s)) && HoldsAll(BoxSet(t), s) && HoldsAll(BoxSet(s), t)
    ensures BoxSet(s) <= BoxSet(t)
  {
    forall r | r in s
      ensures ToBox(r) in BoxSet(t)
    {
      HeldBothWays(s, t, r);
    }
  }

  lemma {:induction false} HeldBothWays(s: seq<Rect>, t: seq<Rect>, r: Rect)
    requires Solid(s) && Solid(t) && Apart(BoxSet(s)) && HoldsAll(BoxSet(t), s) && HoldsAll(BoxSet(s), t)
    requires r in s
    ensures ToBox(r) in BoxSet(t)
  {
    hide Joins, HoldsAll, Apart, BoxSet;
    assert !Empty(r);
    var q := Holder(t, s, r);
    assert !Empty(q);
    var p := Holder(s, t, q);
    InsideJoins(ToBox(r), ToBox(p));
    SameBox(s, r, p);
  }

  lemma {:induction false} Holder(t: seq<Rect>, s: seq<Rect>, r: Rect) returns (q: Rect)
    requires HoldsAll(BoxSet(t), s) && r in s && !Empty(r)
    ensures q in t && Within(ToBox(r), ToBox(q)) && ToBox(q) in BoxSet(t)
  {
    var u :| u in BoxSet(t) && Within(ToBox(r), u);
    q :| q in t && ToBox(q) == u;
  }

  lemma {:induction false} SameBox(s: seq<Rect>, r: Rect, p: Rect)
    requires Apart(BoxSet(s)) && r in s && p in s && Joins(ToBox(r), ToBox(p))
    ensures ToBox(r) == ToBox(p)
  {
    assert ToBox(r) in BoxSet(s) && ToBox(p) in BoxSet(s);
  }

  /** The final set does not depend on the order (or repetition) of the additions. */
  lemma {:induction false} OrderDoesNotMatter(adds: seq<Rect>, states: seq<seq<Rect>>,
                                              more: seq<Rect>, others: seq<seq<Rect>>, hull: Box)
    requires Run(adds, states) && RoomyRun(adds, states) && Run(more, others) && RoomyRun(more, others)
    requires Spans(adds, hull) && Fits(hull) && forall a :: a in adds <==> a in more
    ensures BoxSet(states[|adds|]) == BoxSet(others[|more|])
  {
    RunIsLeastClosure(adds, states, hull, |adds|);
    RunIsLeastClosure(more, others, hull, |more|);
    assert adds[..|adds|] == adds && more[..|more|] == more;
    LeastClosureIsUnique(adds, more, states[|adds|], others[|more|]);
  }

  // ---- Where coverage ends ---------------------------------------------------

  /** What every set keeps, however far apart its rectangles are. */
  predicate Sparse(s: seq<Rect>) {
    |s| <= DAMAGE_MAX && Solid(s) && NonJoining(s)
  }

  /** The grown box takes its right and lower edges from boxes it swallowed; rb and lb are those
      of the box it grew from. */
  lemma {:induction false} AbsorbEdges(s: seq<Rect>, b: Box, i: nat, rb: Box, lb: Box) returns (right: Box, low: Box)
    requires i <= |s| && Solid(s) && EdgeOf(rb, lb, b)
    ensures EdgeOf(right, low, Absorb(s, b, i).box)
    ensures (right == rb || right in BoxSet(s)) && (low == lb || low in BoxSet(s))
    decreases |s|, |s| - i
  {
    if i == |s| {
      right, low := rb, lb;
    } else if Joins(ToBox(s[i]), b) {
      assert !Empty(s[i]);
      var c := ToBox(s[i]);
      RemoveKeeps(s, i);
      assert c in BoxSet(s);
      right, low := AbsorbEdges(RemoveAt(s, i), Union(c, b), 0,
                                if c.x1 > b.x1 then c else rb, if c.y1 > b.y1 then c else lb);
    } else {
      right, low := AbsorbEdges(s, b, i + 1, rb, lb);
    }
  }

  /** Boxes inside b that reach its right and its lower edge. */
  predicate EdgeOf(right: Box, low: Box, b: Box) {
    && NonEmpty(right) && Within(right, b) && right.x1 == b.x1
    && NonEmpty(low) && Within(low, b) && low.y1 == b.y1
  }

  /** A pixel of one of the two edge boxes that the cut rectangle no longer has. */
  lemma EdgeIsLost(right: Box, low: Box, b: Box) returns (x: int, y: int)
    requires Cornered(b) && EdgeOf(right, low, b) && !Fits(b)
    ensures (Has(right, x, y) || Has(low, x, y)) && Has(b, x, y) && !Has(ToBox(ToRect(b)), x, y)
  {
    if b.x1 - b.x0 > INT16_MAX {
      x, y := right.x1 - 1, right.y0;
    } else {
      x, y := low.x0, low.y1 - 1;
    }
  }

  /** The box an addition stores last, before its width and height are cut: what the rectangle
      has grown into or, when the set was full, what the merged pair has. */
  ghost predicate Stores(s: seq<Rect>, a: Rect, box: Box)
    requires Solid(s) && !Empty(a)
  {
    AbsorbedIsSolid(s, ToBox(a), 0);
    var d := Absorb(s, ToBox(a), 0);
    if Roomy(s, a) then box == d.box
    else exists i, j :: MergesInto(Boxes(d.rest) + [d.box], i, j, box)
  }

  ghost predicate MergesInto(all: seq<Box>, i: nat, j: nat, box: Box) {
    && (forall b <- all :: Cornered(b)) && Cheapest(all, i, j)
    && box == Absorb(Rects(Dropped(all, i, j, |all|)), Union(all[i], all[j]), 0).box
  }

  lemma {:induction false} StoresOne(s: seq<Rect>, a: Rect, box: Box, other: Box)
    requires Solid(s) && !Empty(a) && Stores(s, a, box) && Stores(s, a, other)
    ensures box == other
  {
    var d := Absorb(s, ToBox(a), 0);
    if !Roomy(s, a) {
      var all := Boxes(d.rest) + [d.box];
      var i, j :| MergesInto(all, i, j, box);
      var k, m :| MergesInto(all, k, m, other);
      CheapestIsUnique(all, i, j, k, m);
    }
  }

  /** Absorbing nothing leaves everything as it was. */
  lemma {:induction false} AbsorbedNothing(s: seq<Rect>, b: Box, i: nat)
    requires i <= |s|
    ensures |Absorb(s, b, i).rest| <= |s|
    ensures |Absorb(s, b, i).rest| == |s| ==> Absorb(s, b, i) == Absorbed(s, b)
    decreases |s|, |s| - i
  {
    if i < |s| {
      if Joins(ToBox(s[i]), b) {
        AbsorbedNothing(RemoveAt(s, i), Union(ToBox(s[i]), b), 0);
      } else {
        AbsorbedNothing(s, b, i + 1);
      }
    }
  }

  /** Putting down the box that b has grown into keeps the set sparse, and keeps every pixel if
      the box fits; if not, it loses one of an edge box or of a rectangle of the set. */
  lemma {:induction false} PutDown(s: seq<Rect>, b: Box, next: seq<Rect>, rb: Box, lb: Box) returns (x: int, y: int)
    requires Solid(s) && NonJoining(s) && Cornered(b) && EdgeOf(rb, lb, b)
    requires var d := Absorb(s, b, 0); Cornered(d.box) && next == d.rest + [ToRect(d.box)]
    ensures Solid(next) && NonJoining(next)
    ensures var box := Absorb(s, b, 0).box;
            if Fits(box) then forall u, v :: Has(b, u, v) || Covered(s, u, v) ==> Covered(next, u, v)
            else (Has(rb, x, y) || Has(lb, x, y) || Covered(s, x, y)) && !Covered(next, x, y)
  {
    hide Absorb, NonJoining;
    var d := Absorb(s, b, 0);
    AbsorbedIsSolid(s, b, 0);
    assert Clear(s[..0], b);
    AbsorbSettles(s, b, 0);
    var last := ToRect(d.box);
    CutStaysApart(d.rest, d.box, next);
    x, y := 0, 0;
    if Fits(d.box) {
      AllCovered(s, b, d, last, next);
    } else {
      var right, low := AbsorbEdges(s, b, 0, rb, lb);
      x, y := EdgeIsLost(right, low, d.box);
      InSet(s, right, rb, low, lb, x, y);
      LostForGood(d.rest, d.box, next, x, y);
    }
  }

  lemma {:induction false} CutStaysApart(rest: seq<Rect>, box: Box, next: seq<Rect>)
    requires Solid(rest) && NonJoining(rest) && Clear(rest, box) && Cornered(box) && next == rest + [ToRect(box)]
    ensures Solid(next) && NonJoining(next)
  {
    forall i, j | 0 <= i < j < |next|
      ensures !Joins(ToBox(next[i]), ToBox(next[j]))
    {
      if j < |rest| {
        assert !Joins(ToBox(rest[i]), ToBox(rest[j]));
      } else {
        assert !Joins(ToBox(rest[i]), box);
      }
    }
  }

  lemma {:induction false} InSet(s: seq<Rect>, right: Box, rb: Box, low: Box, lb: Box, x: int, y: int)
    requires (right == rb || right in BoxSet(s)) && (low == lb || low in BoxSet(s))
    requires Has(right, x, y) || Has(low, x, y)
    ensures Has(rb, x, y) || Has(lb, x, y) || Covered(s, x, y)
  {
  }

  lemma {:induction false} LostForGood(rest: seq<Rect>, box: Box, next: seq<Rect>, x: int, y: int)
    requires Clear(rest, box) && Cornered(box) && next == rest + [ToRect(box)]
    requires Has(box, x, y) && !Has(ToBox(ToRect(box)), x, y)
    ensures !Covered(next, x, y)
  {
    forall k | 0 <= k < |rest|
      ensures !Has(ToBox(rest[k]), x, y)
    {
      assert !Joins(ToBox(rest[k]), box);
    }
  }

  /** An addition keeps every pixel exactly when the box it stores is at most 32767 pixels each
      way, whether or not the set was full: a wider one is cut and loses its far edge. Either way
      the set stays sparse. */
  lemma {:induction false} CoverageExactlyWhenItFits(s: seq<Rect>, a: Rect, next: seq<Rect>) returns (box: Box)
    requires Sparse(s) && Added(s, a, next)
    ensures Sparse(next) && (!Empty(a) ==> Stores(s, a, box))
    ensures (forall x, y :: Has(ToBox(a), x, y) || Covered(s, x, y) ==> Covered(next, x, y))
            <==> Empty(a) || Fits(box)
  {
    if Empty(a) {
      box := ToBox(a);
      return;
    }
    var b := ToBox(a);
    AbsorbedIsSolid(s, b, 0);
    AbsorbedNothing(s, b, 0);
    if Roomy(s, a) {
      box := Absorb(s, b, 0).box;
      var _, _ := PutDown(s, b, next, b, b);
    } else {
      assert Absorb(s, b, 0) == Absorbed(s, b);
      assert Clear(s[..0], b);
      AbsorbSettles(s, b, 0);
      hide Absorb, NonJoining, Solid, Cheapest;
      box := FullIsExact(s, a, next);
    }
  }

  lemma {:induction false} FullIsExact(s: seq<Rect>, a: Rect, next: seq<Rect>) returns (box: Box)
    requires |s| == DAMAGE_MAX && Solid(s) && NonJoining(s) && !Empty(a) && Clear(s, ToBox(a))
    requires exists i, j :: Merged(Boxes(s) + [ToBox(a)], i, j, next)
    ensures exists i, j :: MergesInto(Boxes(s) + [ToBox(a)], i, j, box)
    ensures Sparse(next)
    ensures (forall x, y :: Has(ToBox(a), x, y) || Covered(s, x, y) ==> Covered(next, x, y)) <==> Fits(box)
  {
    var all := Boxes(s) + [ToBox(a)];
    var i: nat, j: nat :| Merged(all, i, j, next);
    box := MergeIsExact(s, a, all, i, j, next);
    assert MergesInto(all, i, j, box);
  }

  lemma {:induction false} MergeIsExact(s: seq<Rect>, a: Rect, all: seq<Box>, i: nat, j: nat, next: seq<Rect>)
      returns (box: Box)
    requires |s| == DAMAGE_MAX && Solid(s) && NonJoining(s) && !Empty(a) && Clear(s, ToBox(a))
    requires all == Boxes(s) + [ToBox(a)] && Merged(all, i, j, next)
    ensures MergesInto(all, i, j, box) && Sparse(next)
    ensures (forall x, y :: Has(ToBox(a), x, y) || Covered(s, x, y) ==> Covered(next, x, y)) <==> Fits(box)
  {
    hide Absorb, NonJoining, Solid, Cheapest, Has, Cornered, Joins, EdgeOf, Clear;
    PairInside(all, i, j);
    var merged := Union(all[i], all[j]);
    var others := OthersLeft(s, a, all, i, j);
    AbsorbedNothing(others, merged, 0);
    box := Absorb(others, merged, 0).box;
    var rb, lb := PairEdges(all, i, j);
    var x, y := PutDown(others, merged, next, rb, lb);
    FiveCovers(s, a, i, j);
    FiveAre(s, a, i, j);
    hide *;
  }

  lemma PairInside(all: seq<Box>, i: nat, j: nat)
    requires Cheapest(all, i, j)
    ensures i < j < |all|
  {
  }

  /** The rectangles besides the pair, still apart. */
  lemma {:induction false} OthersLeft(s: seq<Rect>, a: Rect, all: seq<Box>, i: nat, j: nat) returns (others: seq<Rect>)
    requires Solid(s) && NonJoining(s) && !Empty(a) && Clear(s, ToBox(a))
    requires all == Boxes(s) + [ToBox(a)] && i < j < |all| && forall b <- all :: Cornered(b)
    ensures others == RemoveAt(RemoveAt(s + [a], j), i) == Rects(Dropped(all, i, j, |all|))
    ensures Solid(others) && NonJoining(others)
    ensures forall m :: 0 <= m < |all| ==> all[m] == ToBox((s + [a])[m])
  {
    hide NonJoining, Solid, Cornered, Clear, Rects, Dropped;
    var five := s + [a];
    OthersAre(five, all, i, j);
    FiveApart(s, a);
    OthersApart(five, i, j);
    others := RemoveAt(RemoveAt(five, j), i);
  }

  /** What covers the others and the merged pair covers the set and the rectangle. */
  lemma {:induction false} FiveAre(s: seq<Rect>, a: Rect, i: nat, j: nat)
    requires i < j <= |s|
    ensures var five := s + [a];
            forall x, y :: Has(ToBox(a), x, y) || Covered(s, x, y) ==>
              Has(Union(ToBox(five[i]), ToBox(five[j])), x, y) || Covered(RemoveAt(RemoveAt(five, j), i), x, y)
  {
    var five := s + [a];
    forall x, y | Has(ToBox(a), x, y) || Covered(s, x, y)
      ensures Has(Union(ToBox(five[i]), ToBox(five[j])), x, y) || Covered(RemoveAt(RemoveAt(five, j), i), x, y)
    {
      CoveredByFive(s, a, x, y);
      OthersCover(five, i, j, x, y);
    }
  }

  /** The union of a pair takes each edge from one of the two. */
  lemma PairEdges(all: seq<Box>, i: nat, j: nat) returns (rb: Box, lb: Box)
    requires i < j < |all| && forall b <- all :: Cornered(b)
    ensures rb in [all[i], all[j]] && lb in [all[i], all[j]]
    ensures Cornered(Union(all[i], all[j])) && EdgeOf(rb, lb, Union(all[i], all[j]))
  {
    assert all[i] in all && all[j] in all;
    rb := if all[i].x1 > all[j].x1 then all[i] else all[j];
    lb := if all[i].y1 > all[j].y1 then all[i] else all[j];
  }

  lemma {:induction false} FiveApart(s: seq<Rect>, a: Rect)
    requires Solid(s) && NonJoining(s) && !Empty(a) && Clear(s, ToBox(a))
    ensures Solid(s + [a]) && NonJoining(s + [a])
  {
  }

  lemma {:induction false} OthersApart(five: seq<Rect>, i: nat, j: nat)
    requires i < j < |five| && Solid(five) && NonJoining(five)
    ensures var others := RemoveAt(RemoveAt(five, j), i); Solid(others) && NonJoining(others)
  {
    RemoveKeeps(five, j);
    RemoveKeeps(RemoveAt(five, j), i);
  }

  lemma {:induction false} CoveredByFive(s: seq<Rect>, a: Rect, x: int, y: int)
    requires Has(ToBox(a), x, y) || Covered(s, x, y)
    ensures Covered(s + [a], x, y)
  {
    assert a in s + [a];
    assert forall r <- s :: r in s + [a];
  }

  /** What is left of the five, and the pair, are of the set or the added rectangle. */
  lemma {:induction false} FiveCovers(s: seq<Rect>, a: Rect, i: nat, j: nat)
    requires i < j <= |s|
    ensures var five := s + [a];
            forall x, y ::
              (Covered(RemoveAt(RemoveAt(five, j), i), x, y) || Has(ToBox(five[i]), x, y) ||
               Has(ToBox(five[j]), x, y)) ==>
              Has(ToBox(a), x, y) || Covered(s, x, y)
  {
    hide Has;
    var five := s + [a];
    RemoveKeeps(five, j);
    RemoveKeeps(RemoveAt(five, j), i);
    assert five[i] in five && five[j] in five;
    assert forall r <- five :: r in s || r == a;
  }

  /** However wide the additions: at every point of any run at most four rectangles, no two
      overlapping or sharing an edge; and every step whose stored box fits loses nothing. */
  lemma {:induction false} RunStaysSparse(adds: seq<Rect>, states: seq<seq<Rect>>, k: nat)
    requires Run(adds, states) && k <= |adds|
    ensures Sparse(states[k])
    decreases k
  {
    if k > 0 {
      RunStaysSparse(adds, states, k - 1);
      assert Added(states[k - 1], adds[k - 1], states[k]);
      var _ := CoverageExactlyWhenItFits(states[k - 1], adds[k - 1], states[k]);
    }
  }

  /** A run of two additions, together 32777 pixels wide, that loses a pixel. */
  lemma {:induction false} WideUnionLosesPixels()
    ensures var s, a, next := [Rect(0, 0, 32767, 1)], Rect(-10, 0, 20, 1), [Rect(-10, 0, 32767, 1)];
            Run([s[0], a], [[], s, next]) && Covered(s, 32766, 0) && !Covered(next, 32766, 0)
  {
    var r, a, cut := Rect(0, 0, 32767, 1), Rect(-10, 0, 20, 1), Rect(-10, 0, 32767, 1);
    var s, next := [r], [cut];
    assert Absorb([], ToBox(r), 0) == Absorbed([], ToBox(r));
    assert Added([], r, s);
    assert RemoveAt(s, 0) == [];
    assert Absorb(s, ToBox(a), 0) == Absorb([], Box(-10, 0, 32767, 1), 0) == Absorbed([], Box(-10, 0, 32767, 1));
    assert Added(s, a, next);
    assert r in s && Has(ToBox(r), 32766, 0);
  }

  lemma {:induction false} AllCovered(s: seq<Rect>, b: Box, d: Absorbed, last: Rect, next: seq<Rect>)
    requires next == d.rest + [last] && ToBox(last) == d.box && Within(b, d.box)
    requires forall r <- s :: r in d.rest || Within(ToBox(r), d.box)
    ensures forall x, y :: Has(b, x, y) || Covered(s, x, y) ==> Covered(next, x, y)
  {
    assert last in next;
    forall x, y | Has(b, x, y) || Covered(s, x, y)
      ensures Covered(next, x, y)
    {
      if Has(b, x, y) {
        assert Has(ToBox(last), x, y);
      } else {
        var r :| r in s && Has(ToBox(r), x, y);
        assert r in next || Has(ToBox(last), x, y);
      }
    }
  }
}
