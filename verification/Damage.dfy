/** A screen's damage as at most four rectangles (components/stark_ui/ui_damage.c). */
module Damage {
  import opened Stark
  import opened GfxTypes

  const DAMAGE_MAX := 4
  const INT64_MAX := 0x7FFF_FFFF_FFFF_FFFF

  predicate NonEmpty(b: Box) {
    b.x0 < b.x1 && b.y0 < b.y1
  }

  predicate Within(a: Box, b: Box) {
    b.x0 <= a.x0 && a.x1 <= b.x1 && b.y0 <= a.y0 && a.y1 <= b.y1
  }

  function ToBox(r: Rect): Box {
    Box(r.x, r.y, r.x as int + r.w as int, r.y as int + r.h as int)
  }

  /** Every corner a box takes comes from a rectangle's, so it fits 16 bits. */
  predicate Cornered(b: Box) {
    && -32768 <= b.x0 <= 32767 && -32768 <= b.y0 <= 32767 && NonEmpty(b)
    && b.x1 <= 2 * INT16_MAX && b.y1 <= 2 * INT16_MAX
  }

  /** The width and height are cut at INT16_MAX. */
  function ToRect(b: Box): Rect
    requires Cornered(b)
  {
    Rect(b.x0, b.y0, Min(b.x1 - b.x0, INT16_MAX), Min(b.y1 - b.y0, INT16_MAX))
  }

  predicate Fits(b: Box) {
    b.x1 - b.x0 <= INT16_MAX && b.y1 - b.y0 <= INT16_MAX
  }

  function Union(a: Box, b: Box): Box {
    Box(Min(a.x0, b.x0), Min(a.y0, b.y0), Max(a.x1, b.x1), Max(a.y1, b.y1))
  }

  function Area(b: Box): int {
    (b.x1 - b.x0) * (b.y1 - b.y0)
  }

  /** Overlap, or a shared edge; a shared corner alone does not count. */
  predicate Joins(a: Box, b: Box) {
    var xOverlap := a.x0 < b.x1 && b.x0 < a.x1;
    var yOverlap := a.y0 < b.y1 && b.y0 < a.y1;
    var xTouch := a.x0 <= b.x1 && b.x0 <= a.x1;
    var yTouch := a.y0 <= b.y1 && b.y0 <= a.y1;
    (xOverlap && yTouch) || (yOverlap && xTouch)
  }

  // ---- The damage set as a sequence ------------------------------------------

  function RemoveAt<T>(s: seq<T>, i: nat): seq<T>
    requires i < |s|
  {
    s[..i] + s[i + 1..]
  }

  datatype Absorbed = Absorbed(rest: seq<Rect>, box: Box)

  /** Merges into b every rectangle it joins, from index i on, starting over after each. */
  function Absorb(s: seq<Rect>, b: Box, i: nat): Absorbed
    requires i <= |s|
    decreases |s|, |s| - i
  {
    if i == |s| then Absorbed(s, b)
    else if Joins(ToBox(s[i]), b) then Absorb(RemoveAt(s, i), Union(ToBox(s[i]), b), 0)
    else Absorb(s, b, i + 1)
  }

  function Boxes(s: seq<Rect>): (bs: seq<Box>)
    ensures |bs| == |s| && forall k :: 0 <= k < |s| ==> bs[k] == ToBox(s[k])
  {
    if s == [] then [] else Boxes(s[..|s| - 1]) + [ToBox(s[|s| - 1])]
  }

  function Growth(all: seq<Box>, i: nat, j: nat): int
    requires i < j < |all|
  {
    Area(Union(all[i], all[j])) - Area(all[i]) - Area(all[j])
  }

  /** Growth g at pair (i, j) is no worse than at (k, m), and comes first among equals. */
  predicate Leads(all: seq<Box>, g: int, i: nat, j: nat, k: nat, m: nat)
    requires k < m < |all|
  {
    g <= Growth(all, k, m) && (g == Growth(all, k, m) ==> i < k || (i == k && j <= m))
  }

  /** The pair whose union grows the covered area least; of equals, the lowest index pair. */
  predicate Cheapest(all: seq<Box>, i: nat, j: nat) {
    i < j < |all| && forall k, m :: 0 <= k < m < |all| ==> Leads(all, Growth(all, i, j), i, j, k, m)
  }

  lemma {:induction false} CheapestIsUnique(all: seq<Box>, i: nat, j: nat, k: nat, m: nat)
    requires Cheapest(all, i, j) && Cheapest(all, k, m)
    ensures i == k && j == m
  {
    assert Leads(all, Growth(all, i, j), i, j, k, m);
    assert Leads(all, Growth(all, k, m), k, m, i, j);
  }

  function Rects(bs: seq<Box>): (s: seq<Rect>)
    requires forall b <- bs :: Cornered(b)
    ensures |s| == |bs| && forall k :: 0 <= k < |s| ==> s[k] == ToRect(bs[k])
    ensures Solid(s)
  {
    if bs == [] then [] else
      assert bs[|bs| - 1] in bs;
      Rects(bs[..|bs| - 1]) + [ToRect(bs[|bs| - 1])]
  }

  /** The first k elements without those at i and j. */
  function Dropped<T>(s: seq<T>, i: nat, j: nat, k: nat): (d: seq<T>)
    requires i < j < |s| && k <= |s|
    ensures |d| == k - (if i < k then 1 else 0) - (if j < k then 1 else 0)
    ensures forall e <- d :: e in s
  {
    if k == 0 then []
    else Dropped(s, i, j, k - 1) + (if k - 1 == i || k - 1 == j then [] else [s[k - 1]])
  }

  lemma {:induction false} SliceMore<T>(s: seq<T>, a: nat, k: nat)
    requires a < k <= |s|
    ensures s[a..k] == s[a..k - 1] + [s[k - 1]]
  {
  }

  lemma {:induction false} DroppedFirst<T>(s: seq<T>, i: nat, j: nat, k: nat)
    requires k <= i < j < |s|
    ensures Dropped(s, i, j, k) == s[..k]
    decreases k
  {
    if k > 0 {
      DroppedFirst(s, i, j, k - 1);
      SliceMore(s, 0, k);
    }
  }

  lemma {:induction false} DroppedSecond<T>(s: seq<T>, i: nat, j: nat, k: nat)
    requires i < k <= j < |s|
    ensures Dropped(s, i, j, k) == s[..i] + s[i + 1..k]
    decreases k
  {
    if k == i + 1 {
      DroppedFirst(s, i, j, i);
    } else {
      DroppedSecond(s, i, j, k - 1);
      SliceMore(s, i + 1, k);
    }
  }

  lemma {:induction false} DroppedRemoves<T>(s: seq<T>, i: nat, j: nat, k: nat)
    requires i < j < k <= |s|
    ensures Dropped(s, i, j, k) == s[..i] + s[i + 1..j] + s[j + 1..k]
    decreases k
  {
    if k == j + 1 {
      DroppedSecond(s, i, j, j);
    } else {
      DroppedRemoves(s, i, j, k - 1);
      SliceMore(s, j + 1, k);
    }
  }

  predicate Empty(a: Rect) {
    a.w <= 0 || a.h <= 0
  }

  predicate Solid(s: seq<Rect>) {
    forall r <- s :: !Empty(r)
  }

  /** next is the set after adding a to s. */
  ghost predicate Added(s: seq<Rect>, a: Rect, next: seq<Rect>)
    requires Solid(s)
  {
    if Empty(a) then next == s
    else
      AbsorbedIsSolid(s, ToBox(a), 0);
      var d := Absorb(s, ToBox(a), 0);
      if |d.rest| < DAMAGE_MAX then next == d.rest + [ToRect(d.box)]
      else exists i, j :: Merged(Boxes(d.rest) + [d.box], i, j, next)
  }

  /** next is what is left of `all` after merging the cheapest pair i, j and absorbing again. */
  ghost predicate Merged(all: seq<Box>, i: nat, j: nat, next: seq<Rect>) {
    && (forall b <- all :: Cornered(b))
    && Cheapest(all, i, j)
    && var d := Absorb(Rects(Dropped(all, i, j, |all|)), Union(all[i], all[j]), 0);
       Cornered(d.box) && next == d.rest + [ToRect(d.box)]
  }

  lemma {:induction false} AbsorbedIsSolid(s: seq<Rect>, b: Box, i: nat)
    requires Solid(s) && Cornered(b) && i <= |s|
    ensures Solid(Absorb(s, b, i).rest) && Cornered(Absorb(s, b, i).box)
    ensures |Absorb(s, b, i).rest| <= |s|
    decreases |s|, |s| - i
  {
    if i < |s| {
      if Joins(ToBox(s[i]), b) {
        assert !Empty(s[i]);
        AbsorbedIsSolid(RemoveAt(s, i), Union(ToBox(s[i]), b), 0);
      } else {
        AbsorbedIsSolid(s, b, i + 1);
      }
    }
  }

  // ---- The implementation ----------------------------------------------------

  class DamageSet {
    const r: array<Rect>
    var n: nat

    constructor ()
      ensures Valid() && fresh(r) && Contents() == []
    {
      r := new Rect[DAMAGE_MAX](_ => Rect(0, 0, 0, 0));
      n := 0;
    }

    ghost predicate Valid()
      reads this, r
    {
      r.Length == DAMAGE_MAX && n <= DAMAGE_MAX && Solid(r[..n])
    }

    ghost function Contents(): seq<Rect>
      requires Valid()
      reads this, r
    {
      r[..n]
    }

    method Clear()
      requires Valid()
      modifies this
      ensures Valid() && Contents() == []
    {
      n := 0;
    }

    method Push(x: Rect)
      requires Valid() && n < DAMAGE_MAX && !Empty(x)
      modifies this, r
      ensures Valid() && Contents() == old(Contents()) + [x]
    {
      r[n] := x;
      n := n + 1;
      assert r[..n] == old(r[..n]) + [x];
    }

    method Remove(i: nat)
      requires Valid() && i < n
      modifies this, r
      ensures Valid() && Contents() == RemoveAt(old(Contents()), i)
    {
      ghost var was := r[..n];
      var k := i + 1;
      while k < n
        invariant i + 1 <= k <= n == |was|
        invariant forall m :: 0 <= m < i ==> r[m] == was[m]
        invariant forall m :: i <= m < k - 1 ==> r[m] == was[m + 1]
        invariant forall m :: k <= m < n ==> r[m] == was[m]
      {
        r[k - 1] := r[k];
        k := k + 1;
      }
      n := n - 1;
      forall m | 0 <= m < n
        ensures r[m] == RemoveAt(was, i)[m] && r[m] in was
      {
      }
      assert r[..n] == RemoveAt(was, i);
    }

    method AbsorbInto(b0: Box) returns (b: Box)
      requires Valid() && Cornered(b0)
      modifies this, r
      ensures Valid() && Cornered(b)
      ensures Absorbed(Contents(), b) == Absorb(old(Contents()), b0, 0)
    {
      b := b0;
      var i := 0;
      AbsorbedIsSolid(Contents(), b, 0);
      while i < n
        invariant Valid() && i <= n && Cornered(b)
        invariant Absorb(Contents(), b, i) == Absorb(old(Contents()), b0, 0)
        decreases n, n - i
      {
        var s := ToBox(r[i]);
        assert r[i] in r[..n];
        if Joins(s, b) {
          b := Union(s, b);
          Remove(i);
          i := 0;
        } else {
          i := i + 1;
        }
      }
    }

    method Add(a: Rect)
      requires Valid()
      modifies this, r
      ensures Valid() && Added(old(Contents()), a, Contents())
    {
      if a.w <= 0 || a.h <= 0 {
        return;
      }
      AbsorbedIsSolid(Contents(), ToBox(a), 0);
      var b := AbsorbInto(ToBox(a));
      if n < DAMAGE_MAX {
        Push(ToRect(b));
        return;
      }
      MergeCheapest(b);
    }

    /** The set is full: merges the cheapest pair among the stored rectangles and b. */
    method MergeCheapest(b0: Box)
      requires Valid() && n == DAMAGE_MAX && Cornered(b0)
      modifies this, r
      ensures Valid()
      ensures exists i, j :: Merged(Boxes(old(Contents())) + [b0], i, j, Contents())
    {
      var all := Stored();
      all := all + [b0];
      var bi, bj := CheapestPair(all);
      hide Cheapest, Boxes, Rects, Dropped, Absorb, Solid, Growth;
      UnionCornered(all, bi, bj);
      var merged := Union(all[bi], all[bj]);
      Keep(all, bi, bj);
      ghost var others := Contents();
      FewerThanFull(others, merged);
      var b := AbsorbInto(merged);
      Push(ToRect(b));
      MergedIs(all, bi, bj, others, b, Contents());
    }

    method Stored() returns (all: seq<Box>)
      requires Valid()
      ensures all == Boxes(Contents()) && forall c <- all :: Cornered(c)
    {
      all := [];
      var k := 0;
      while k < n
        invariant k <= n && all == Boxes(r[..k]) && forall c <- all :: Cornered(c)
      {
        assert r[..k + 1][..k] == r[..k];
        assert r[k] in r[..n];
        all := all + [ToBox(r[k])];
        k := k + 1;
      }
    }

    /** Refills the array with every box but the two merged ones. */
    method Keep(all: seq<Box>, bi: nat, bj: nat)
      requires Valid() && |all| == DAMAGE_MAX + 1 && bi < bj < |all| && forall c <- all :: Cornered(c)
      modifies this, r
      ensures Valid() && Contents() == Rects(Dropped(all, bi, bj, |all|)) && n == DAMAGE_MAX - 1
    {
      hide Dropped, Rects, Cornered;
      KeepNone(all, bi, bj);
      n := 0;
      var k := 0;
      while k < |all|
        invariant k <= |all| && Valid() && Contents() == Rects(Dropped(all, bi, bj, k))
      {
        KeepStep(all, bi, bj, k);
        if k != bi && k != bj {
          Push(ToRect(all[k]));
        }
        k := k + 1;
      }
    }
  }

  lemma UnionCornered(all: seq<Box>, i: nat, j: nat)
    requires i < j < |all| && forall b <- all :: Cornered(b)
    ensures Cornered(Union(all[i], all[j]))
  {
    assert all[i] in all && all[j] in all;
  }

  lemma {:induction false} FewerThanFull(others: seq<Rect>, b: Box)
    requires Solid(others) && Cornered(b) && |others| < DAMAGE_MAX
    ensures |Absorb(others, b, 0).rest| < DAMAGE_MAX
  {
    AbsorbedIsSolid(others, b, 0);
  }

  lemma MergedIs(all: seq<Box>, i: nat, j: nat, others: seq<Rect>, b: Box, next: seq<Rect>)
    requires (forall c <- all :: Cornered(c)) && Cheapest(all, i, j) && others == Rects(Dropped(all, i, j, |all|))
    requires b == Absorb(others, Union(all[i], all[j]), 0).box && Cornered(b)
    requires next == Absorb(others, Union(all[i], all[j]), 0).rest + [ToRect(b)]
    ensures Merged(all, i, j, next)
  {
  }

  lemma KeepNone(all: seq<Box>, i: nat, j: nat)
    requires i < j < |all| && forall b <- all :: Cornered(b)
    ensures Rects(Dropped(all, i, j, 0)) == []
  {
  }

  lemma {:induction false} KeepStep(all: seq<Box>, i: nat, j: nat, k: nat)
    requires i < j < |all| && k < |all| && forall b <- all :: Cornered(b)
    ensures Cornered(all[k]) && !Empty(ToRect(all[k]))
    ensures Rects(Dropped(all, i, j, k + 1))
         == Rects(Dropped(all, i, j, k)) + (if k == i || k == j then [] else [ToRect(all[k])])
  {
    assert all[k] in all;
    var was, now := Dropped(all, i, j, k), Dropped(all, i, j, k + 1);
    if k == i || k == j {
      assert now == was;
    } else {
      assert now[..|was|] == was;
    }
  }

  lemma {:induction false} GrowthFits(all: seq<Box>, i: nat, j: nat)
    requires i < j < |all| && Cornered(all[i]) && Cornered(all[j])
    ensures Growth(all, i, j) < INT64_MAX
  {
    var u := Union(all[i], all[j]);
    AreaBounds(u, 98304);
    AreaBounds(all[i], 98304);
    AreaBounds(all[j], 98304);
  }

  lemma {:induction false} AreaBounds(b: Box, side: nat)
    requires NonEmpty(b) && b.x1 - b.x0 <= side && b.y1 - b.y0 <= side
    ensures 0 <= Area(b) <= side * side
  {
    var w, h := b.x1 - b.x0, b.y1 - b.y0;
    MulGrows(w, side, h);
    MulGrows(h, side, side);
    assert w * h <= side * h && side * h <= side * side;
  }

  method CheapestPair(all: seq<Box>) returns (bi: nat, bj: nat)
    requires |all| >= 2 && forall b <- all :: Cornered(b)
    ensures Cheapest(all, bi, bj)
  {
    hide Growth;
    bi, bj := 0, 1;
    var best := INT64_MAX;
    var i := 0;
    while i < |all|
      invariant 0 <= i <= |all| && bi < bj < |all|
      invariant i > 0 ==> best == Growth(all, bi, bj)
      invariant i == 0 ==> best == INT64_MAX
      invariant forall k, m :: 0 <= k < m < |all| && k < i ==>
                  best <= Growth(all, k, m) && (best == Growth(all, k, m) ==> bi < k || (bi == k && bj <= m))
      invariant i > 0 ==> bi < i
    {
      var j := i + 1;
      while j < |all|
        invariant i < j <= |all| && bi < bj < |all|
        invariant (i > 0 || j > i + 1) ==> best == Growth(all, bi, bj)
        invariant i == 0 && j == i + 1 ==> best == INT64_MAX
        invariant forall k, m :: 0 <= k < m < |all| && (k < i || (k == i && m < j)) ==>
                    best <= Growth(all, k, m) && (best == Growth(all, k, m) ==> bi < k || (bi == k && bj <= m))
        invariant (i > 0 || j > i + 1) ==> bi < i || (bi == i && bj < j)
      {
        GrowthFits(all, i, j);
        var growth := Growth(all, i, j);
        if growth < best {
          best, bi, bj := growth, i, j;
        }
        j := j + 1;
      }
      i := i + 1;
    }
  }

  // ---- What one addition keeps -----------------------------------------------

  predicate NonJoining(s: seq<Rect>) {
    forall i, j :: 0 <= i < j < |s| ==> !Joins(ToBox(s[i]), ToBox(s[j]))
  }

  predicate Clear(s: seq<Rect>, b: Box) {
    forall i :: 0 <= i < |s| ==> !Joins(ToBox(s[i]), b)
  }

  lemma {:induction false} RemoveKeeps(s: seq<Rect>, i: nat)
    requires i < |s|
    ensures NonJoining(s) ==> NonJoining(RemoveAt(s, i))
    ensures forall r <- s :: r in RemoveAt(s, i) || r == s[i]
    ensures forall r <- RemoveAt(s, i) :: r in s
  {
    var t := RemoveAt(s, i);
    forall k | 0 <= k < |t|
      ensures t[k] == s[if k < i then k else k + 1]
    {
    }
    forall r | r in s && r != s[i]
      ensures r in t
    {
      var k :| 0 <= k < |s| && s[k] == r;
      assert t[if k < i then k else k - 1] == r;
    }
  }

  /** Nothing left joins the grown box, what is left was there before, and every rectangle is
      either left or inside the grown box. */
  lemma {:induction false} AbsorbSettles(s: seq<Rect>, b: Box, i: nat)
    requires i <= |s| && NonJoining(s) && Clear(s[..i], b)
    ensures var d := Absorb(s, b, i);
            && Clear(d.rest, d.box) && NonJoining(d.rest)
            && (forall r <- d.rest :: r in s)
            && Within(b, d.box)
            && (forall r <- s :: r in d.rest || Within(ToBox(r), d.box))
    decreases |s|, |s| - i
  {
    if i == |s| {
      assert s[..i] == s;
    } else if Joins(ToBox(s[i]), b) {
      RemoveKeeps(s, i);
      AbsorbSettles(RemoveAt(s, i), Union(ToBox(s[i]), b), 0);
    } else {
      assert s[..i + 1] == s[..i] + [s[i]];
      AbsorbSettles(s, b, i + 1);
    }
  }

  predicate AllWithin(s: seq<Rect>, hull: Box) {
    forall r <- s :: Within(ToBox(r), hull)
  }

  lemma {:induction false} AbsorbStaysWithin(s: seq<Rect>, b: Box, i: nat, hull: Box)
    requires i <= |s| && AllWithin(s, hull) && Within(b, hull)
    ensures Within(Absorb(s, b, i).box, hull) && AllWithin(Absorb(s, b, i).rest, hull)
    decreases |s|, |s| - i
  {
    if i < |s| {
      if Joins(ToBox(s[i]), b) {
        RemoveKeeps(s, i);
        AbsorbStaysWithin(RemoveAt(s, i), Union(ToBox(s[i]), b), 0, hull);
      } else {
        AbsorbStaysWithin(s, b, i + 1, hull);
      }
    }
  }

  predicate Covered(s: seq<Rect>, x: int, y: int) {
    exists r :: r in s && Has(ToBox(r), x, y)
  }

  /** The set as a whole: few, solid, apart, and inside the hull. */
  predicate Tidy(s: seq<Rect>, hull: Box) {
    |s| <= DAMAGE_MAX && Solid(s) && NonJoining(s) && AllWithin(s, hull)
  }

  lemma {:induction false} AbsorbThenPut(s: seq<Rect>, b: Box, hull: Box)
    requires Solid(s) && NonJoining(s) && AllWithin(s, hull)
    requires Cornered(b) && Within(b, hull) && Fits(hull)
    ensures var d := Absorb(s, b, 0);
            && Cornered(d.box) && ToBox(ToRect(d.box)) == d.box
            && |d.rest| <= |s|
            && var next := d.rest + [ToRect(d.box)];
               && Solid(next) && NonJoining(next) && AllWithin(next, hull)
               && (forall x, y :: Has(b, x, y) || Covered(s, x, y) ==> Covered(next, x, y))
  {
    AbsorbedIsSolid(s, b, 0);
    AbsorbSettles(s, b, 0);
    AbsorbStaysWithin(s, b, 0, hull);
    var d := Absorb(s, b, 0);
    var last := ToRect(d.box);
    var next := d.rest + [last];
    assert last in next;
    forall x, y | Has(b, x, y) || Covered(s, x, y)
      ensures Covered(next, x, y)
    {
      if Has(b, x, y) {
        assert Has(ToBox(last), x, y);
      } else {
        var r :| r in s && Has(ToBox(r), x, y);
        if r in d.rest {
          assert r in next;
        } else {
          assert Has(ToBox(last), x, y);
        }
      }
    }
  }

  /** Adding keeps the set tidy and covers every pixel of the set and of the rectangle, as long
      as everything lies in a hull of at most 32767 pixels each way. */
  lemma {:induction false} AddKeepsTidy(s: seq<Rect>, a: Rect, next: seq<Rect>, hull: Box)
    requires Tidy(s, hull) && Fits(hull) && (!Empty(a) ==> Within(ToBox(a), hull)) && Added(s, a, next)
    ensures Tidy(next, hull)
    ensures forall x, y :: Has(ToBox(a), x, y) || Covered(s, x, y) ==> Covered(next, x, y)
  {
    if !Empty(a) {
      var b := ToBox(a);
      AbsorbThenPut(s, b, hull);
      var d := Absorb(s, b, 0);
      if |d.rest| >= DAMAGE_MAX {
        var all := Boxes(d.rest) + [d.box];
        var i, j :| Merged(all, i, j, next);
        MergeKeepsTidy(d.rest + [ToRect(d.box)], all, i, j, next, hull);
      }
    }
  }

  /** Merging the cheapest pair of five keeps the set tidy and covers what the five did. */
  lemma {:induction false} MergeKeepsTidy(five: seq<Rect>, all: seq<Box>, i: nat, j: nat, next: seq<Rect>, hull: Box)
    requires |five| == DAMAGE_MAX + 1 && Solid(five) && NonJoining(five) && AllWithin(five, hull) && Fits(hull)
    requires Merged(all, i, j, next) && |all| == |five|
    requires forall k :: 0 <= k < |all| ==> all[k] == ToBox(five[k])
    ensures Tidy(next, hull)
    ensures forall x, y :: Covered(five, x, y) ==> Covered(next, x, y)
  {
    hide Joins, Cornered, Has, Fits, Solid;
    var others, merged := Rects(Dropped(all, i, j, |all|)), Union(all[i], all[j]);
    OthersAre(five, all, i, j);
    OthersKeep(five, i, j, hull);
    UnionWithin(five, all, i, j, hull);
    AbsorbThenPut(others, merged, hull);
    forall x, y | Covered(five, x, y)
      ensures Covered(next, x, y)
    {
      OthersCover(five, i, j, x, y);
    }
  }

  lemma {:induction false} OthersKeep(five: seq<Rect>, i: nat, j: nat, hull: Box)
    requires i < j < |five| && Solid(five) && NonJoining(five) && AllWithin(five, hull)
    ensures var others := RemoveAt(RemoveAt(five, j), i);
            Solid(others) && NonJoining(others) && AllWithin(others, hull)
  {
    RemoveKeeps(five, j);
    RemoveKeeps(RemoveAt(five, j), i);
  }

  lemma {:induction false} OthersCover(five: seq<Rect>, i: nat, j: nat, x: int, y: int)
    requires i < j < |five| && Covered(five, x, y)
    ensures Has(Union(ToBox(five[i]), ToBox(five[j])), x, y) || Covered(RemoveAt(RemoveAt(five, j), i), x, y)
  {
    RemoveKeeps(five, j);
    RemoveKeeps(RemoveAt(five, j), i);
    var r :| r in five && Has(ToBox(r), x, y);
    assert r in RemoveAt(RemoveAt(five, j), i) || r == five[i] || r == five[j];
  }

  lemma {:induction false} UnionWithin(five: seq<Rect>, all: seq<Box>, i: nat, j: nat, hull: Box)
    requires i < j < |all| == |five| && AllWithin(five, hull) && forall b <- all :: Cornered(b)
    requires forall m :: 0 <= m < |all| ==> all[m] == ToBox(five[m])
    ensures Cornered(Union(all[i], all[j])) && Within(Union(all[i], all[j]), hull)
  {
    assert all[i] in all && all[j] in all;
    assert five[i] in five && five[j] in five;
  }

  lemma {:induction false} OthersAre(five: seq<Rect>, all: seq<Box>, i: nat, j: nat)
    requires i < j < |all| == |five| && (forall b <- all :: Cornered(b))
    requires forall m :: 0 <= m < |all| ==> all[m] == ToBox(five[m])
    ensures Rects(Dropped(all, i, j, |all|)) == RemoveAt(RemoveAt(five, j), i)
  {
    DroppedRemoves(all, i, j, |all|);
    var d, t := Dropped(all, i, j, |all|), RemoveAt(RemoveAt(five, j), i);
    forall k | 0 <= k < |t|
      ensures d[k] == ToBox(t[k])
    {
      var m := if k < i then k else if k < j - 1 then k + 1 else k + 2;
      assert t[k] == five[m] && d[k] == all[m];
    }
  }
}
