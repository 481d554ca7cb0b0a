/** Selections of several ranges: normalizing them. */
module Selections {
  import opened Seqs
  import opened Text

  datatype Range = Range(anchor: Pos, head: Pos) {
    function From(): Pos { MinPos(anchor, head) }

    function To(): Pos { MaxPos(anchor, head) }

    predicate Empty() { head == anchor }

    predicate Covers(p: Pos) { Cmp(From(), p) <= 0 && Cmp(p, To()) <= 0 }
  }

  datatype Selection = Selection(ranges: seq<Range>, primIndex: int)

  /** Range b begins after range a ends; when touching is allowed a range with text may begin right there. */
  predicate Separated(a: Range, b: Range, mayTouch: bool) {
    Cmp(a.To(), b.From()) < 0 || (mayTouch && !b.Empty() && a.To() == b.From())
  }

  predicate Normal(ranges: seq<Range>, mayTouch: bool) {
    forall i, j :: 0 <= i < j < |ranges| ==> Separated(ranges[i], ranges[j], mayTouch)
  }

  /** The position is in one of the ranges. */
  ghost predicate Covered(ranges: seq<Range>, p: Pos) {
    exists i :: 0 <= i < |ranges| && ranges[i].Covers(p)
  }

  predicate ByFrom(ranges: seq<Range>) {
    forall i, j :: 0 <= i < j < |ranges| ==> Cmp(ranges[i].From(), ranges[j].From()) <= 0
  }

  // ------------------------------------------------------------------ sorting

  lemma {:induction false} InsertedByFrom(ranges: seq<Range>, r: Range, i: nat)
    requires ByFrom(ranges) && i <= |ranges|
    requires i > 0 ==> Cmp(ranges[i - 1].From(), r.From()) <= 0
    requires i < |ranges| ==> Cmp(r.From(), ranges[i].From()) <= 0
    ensures ByFrom(ranges[..i] + [r] + ranges[i..])
  {
    var s := ranges[..i] + [r] + ranges[i..];
    forall j, k | 0 <= j < k < |s| ensures Cmp(s[j].From(), s[k].From()) <= 0 {
      if j != i && k != i {
        assert Cmp(ranges[if j < i then j else j - 1].From(), ranges[if k < i then k else k - 1].From()) <= 0;
      } else if j == i {
        if k - 1 > i { assert Cmp(ranges[i].From(), ranges[k - 1].From()) <= 0; }
      } else {
        if j < i - 1 { assert Cmp(ranges[j].From(), ranges[i - 1].From()) <= 0; }
      }
    }
  }

  /** Where to put r into a sorted list: behind the ranges that do not start after it. */
  method InsertByFrom(ranges: seq<Range>, r: Range) returns (sorted: seq<Range>)
    requires ByFrom(ranges)
    ensures ByFrom(sorted) && multiset(sorted) == multiset(ranges) + multiset{r}
  {
    hide ByFrom;
    var i: nat := |ranges|;
    while i > 0 && Cmp(ranges[i - 1].From(), r.From()) > 0
      invariant i <= |ranges| && (i < |ranges| ==> Cmp(r.From(), ranges[i].From()) <= 0)
    {
      i := i - 1;
    }
    sorted := ranges[..i] + [r] + ranges[i..];
    InsertedByFrom(ranges, r, i);
    assert ranges == ranges[..i] + ranges[i..];
  }

  /** ranges.sort, by where the ranges start. */
  method SortByFrom(ranges: seq<Range>) returns (sorted: seq<Range>)
    ensures ByFrom(sorted) && multiset(sorted) == multiset(ranges)
  {
    sorted := [];
    for i := 0 to |ranges|
      invariant ByFrom(sorted) && multiset(sorted) == multiset(ranges[..i])
    {
      assert ranges[..i + 1] == ranges[..i] + [ranges[i]];
      sorted := InsertByFrom(sorted, ranges[i]);
    }
    assert ranges[..|ranges|] == ranges;
  }

  ghost predicate SameCover(a: seq<Range>, b: seq<Range>) {
    forall p :: Covered(a, p) <==> Covered(b, p)
  }

  lemma {:induction false} SortedCover(a: seq<Range>, b: seq<Range>)
    requires multiset(a) == multiset(b)
    ensures SameCover(a, b)
  {
    forall p ensures Covered(a, p) <==> Covered(b, p) { SortedCovers(a, b, p); }
  }

  lemma {:induction false} SortedCovers(a: seq<Range>, b: seq<Range>, p: Pos)
    requires multiset(a) == multiset(b)
    ensures Covered(a, p) <==> Covered(b, p)
  {
    if Covered(a, p) {
      var i :| 0 <= i < |a| && a[i].Covers(p);
      assert a[i] in multiset(b);
    }
    if Covered(b, p) {
      var i :| 0 <= i < |b| && b[i].Covers(p);
      assert b[i] in multiset(a);
    }
  }

  method IndexOf(ranges: seq<Range>, r: Range) returns (i: nat)
    requires r in ranges
    ensures i < |ranges| && ranges[i] == r
  {
    i := 0;
    while ranges[i] != r
      invariant i < |ranges| && r in ranges[i..]
      decreases |ranges| - i
    {
      assert ranges[i..] == [ranges[i]] + ranges[i + 1..];
      i := i + 1;
    }
  }

  // ------------------------------------------------------------------ merging

  /** Both ranges in one, in the direction of the first that is not empty. */
  function Merged(prev: Range, cur: Range): Range {
    var from, to := MinPos(prev.From(), cur.From()), MaxPos(prev.To(), cur.To());
    var inv := if prev.Empty() then cur.From() == cur.head else prev.From() == prev.head;
    if inv then Range(to, from) else Range(from, to)
  }

  predicate Overlap(prev: Range, cur: Range, mayTouch: bool) {
    if mayTouch && !cur.Empty() then Cmp(prev.To(), cur.From()) > 0 else Cmp(prev.To(), cur.From()) >= 0
  }

  lemma MergedCovers(prev: Range, cur: Range, mayTouch: bool, p: Pos)
    requires Cmp(prev.From(), cur.From()) <= 0 && Overlap(prev, cur, mayTouch)
    ensures Merged(prev, cur).From() == prev.From()
    ensures Merged(prev, cur).Covers(p) <==> prev.Covers(p) || cur.Covers(p)
    ensures Merged(prev, cur).Empty() ==> prev.Empty()
  {}

  /** Ranges i - 1 and i have become one. */
  ghost predicate IsMerged(a: seq<Range>, b: seq<Range>, i: nat) {
    0 < i < |a| && b == a[..i - 1] + [Merged(a[i - 1], a[i])] + a[i + 1..]
  }

  lemma {:induction false} MergeKeeps(a: seq<Range>, b: seq<Range>, i: nat, mayTouch: bool)
    requires IsMerged(a, b, i) && ByFrom(a) && Normal(a[..i], mayTouch) && Overlap(a[i - 1], a[i], mayTouch)
    ensures ByFrom(b) && Normal(b[..i], mayTouch)
  {
    MergedCovers(a[i - 1], a[i], mayTouch, a[i].From());
    forall j, k | 0 <= j < k < |b| ensures Cmp(b[j].From(), b[k].From()) <= 0 {
      var x, y := if j < i then j else j + 1, if k < i then k else k + 1;
      assert Cmp(a[x].From(), a[y].From()) <= 0;
      assert b[j].From() == a[x].From() && b[k].From() == a[y].From();
    }
    forall j, k | 0 <= j < k < i ensures Separated(b[j], b[k], mayTouch) {
      assert Separated(a[..i][j], a[..i][k], mayTouch);
      assert b[j] == a[j];
      if k == i - 1 { assert b[k] == Merged(a[k], a[i]); } else { assert b[k] == a[k]; }
    }
  }

  lemma {:induction false} MergeCovers(a: seq<Range>, b: seq<Range>, i: nat, mayTouch: bool, p: Pos)
    requires IsMerged(a, b, i) && ByFrom(a) && Overlap(a[i - 1], a[i], mayTouch)
    ensures Covered(a, p) ==> Covered(b, p)
  {
    MergedCovers(a[i - 1], a[i], mayTouch, p);
    if Covered(a, p) {
      var x :| 0 <= x < |a| && a[x].Covers(p);
      if x == i || x == i - 1 {
        assert b[i - 1].Covers(p);
      } else {
        assert b[if x < i then x else x - 1].Covers(p);
      }
    }
  }

  lemma {:induction false} MergeAddsNothing(a: seq<Range>, b: seq<Range>, i: nat, mayTouch: bool, p: Pos)
    requires IsMerged(a, b, i) && ByFrom(a) && Overlap(a[i - 1], a[i], mayTouch)
    ensures Covered(b, p) ==> Covered(a, p)
  {
    MergedCovers(a[i - 1], a[i], mayTouch, p);
    if Covered(b, p) {
      var y :| 0 <= y < |b| && b[y].Covers(p);
      if y == i - 1 {
        assert a[i - 1].Covers(p) || a[i].Covers(p);
      } else {
        assert a[if y < i - 1 then y else y + 1].Covers(p);
      }
    }
  }

  lemma {:induction false} MergeCover(a: seq<Range>, b: seq<Range>, i: nat, mayTouch: bool)
    requires IsMerged(a, b, i) && ByFrom(a) && Overlap(a[i - 1], a[i], mayTouch)
    ensures SameCover(a, b)
  {
    forall p ensures Covered(a, p) <==> Covered(b, p) {
      MergeCovers(a, b, i, mayTouch, p);
      MergeAddsNothing(a, b, i, mayTouch, p);
    }
  }

  lemma SameCoverTwice(a: seq<Range>, b: seq<Range>, c: seq<Range>)
    requires SameCover(a, b) && SameCover(b, c)
    ensures SameCover(a, c)
  {}

  /** The next range does not overlap the last one, and so none before it. */
  lemma {:induction false} NextSeparated(a: seq<Range>, i: nat, mayTouch: bool)
    requires 0 < i < |a| && ByFrom(a) && Normal(a[..i], mayTouch) && !Overlap(a[i - 1], a[i], mayTouch)
    ensures Normal(a[..i + 1], mayTouch)
  {
    forall j, k | 0 <= j < k < i + 1 ensures Separated(a[j], a[k], mayTouch) {
      if k < i {
        assert Separated(a[..i][j], a[..i][k], mayTouch);
      } else if j < i - 1 {
        assert Separated(a[..i][j], a[..i][i - 1], mayTouch);
      }
    }
  }

  /** Every position of range r is in range s. */
  ghost predicate Inside(r: Range, s: Range) {
    Cmp(s.From(), r.From()) <= 0 && Cmp(r.To(), s.To()) <= 0
  }

  /** One merge: everything that the loop needs about the ranges afterwards. */
  lemma {:induction false} MergeStep(given: seq<Range>, a: seq<Range>, b: seq<Range>, i: nat, mayTouch: bool, prim: Range, at: nat)
    requires IsMerged(a, b, i) && ByFrom(a) && Normal(a[..i], mayTouch) && Overlap(a[i - 1], a[i], mayTouch)
    requires SameCover(given, a) && at < |a| && Inside(prim, a[at])
    ensures ByFrom(b) && Normal(b[..i], mayTouch) && SameCover(given, b)
    ensures var after := if i <= at then at - 1 else at; 0 <= after < |b| && Inside(prim, b[after])
  {
    MergeKeeps(a, b, i, mayTouch);
    MergeCover(a, b, i, mayTouch);
    SameCoverTwice(given, a, b);
    MergedCovers(a[i - 1], a[i], mayTouch, a[i].From());
    if at != i && at != i - 1 {
      assert b[if at < i then at else at - 1] == a[at];
    }
  }

  // ------------------------------------------------------------------ what is merged, and in which direction

  /** From p to q, each range but the first touches or overlaps one before it. */
  ghost predicate Linked(ranges: seq<Range>, p: nat, q: nat, mayTouch: bool)
    requires q <= |ranges|
  {
    forall y :: p < y < q ==> exists x :: p <= x < y && !Separated(ranges[x], ranges[y], mayTouch)
  }

  /** r begins where the first of the ranges from p to q does, ends where one of them does, and these hang together. */
  ghost predicate IsChain(ranges: seq<Range>, p: nat, q: nat, r: Range, mayTouch: bool) {
    && p < q <= |ranges| && r.From() == ranges[p].From() && (exists x :: p <= x < q && ranges[x].To() == r.To())
    && Linked(ranges, p, q, mayTouch)
  }

  lemma {:induction false} ChainsMerged(ranges: seq<Range>, p: nat, q: nat, t: nat, prev: Range, cur: Range, mayTouch: bool)
    requires IsChain(ranges, p, q, prev, mayTouch) && IsChain(ranges, q, t, cur, mayTouch) && Inside(ranges[q], cur)
    requires Cmp(prev.From(), cur.From()) <= 0 && Overlap(prev, cur, mayTouch)
    ensures IsChain(ranges, p, t, Merged(prev, cur), mayTouch)
  {
    var r := Merged(prev, cur);
    var a :| p <= a < q && ranges[a].To() == prev.To();
    var b :| q <= b < t && ranges[b].To() == cur.To();
    assert r.From() == prev.From() && ranges[if r.To() == prev.To() then a else b].To() == r.To();
    forall y | p < y < t ensures exists x :: p <= x < y && !Separated(ranges[x], ranges[y], mayTouch) {
      if y == q { assert !Separated(ranges[a], ranges[q], mayTouch); }
    }
  }

  /** The head is in front of the anchor. */
  predicate Backward(r: Range) {
    Cmp(r.head, r.anchor) < 0
  }

  /** The first range from p on, before q, that is not empty; q if there is none. */
  function FirstSome(ranges: seq<Range>, p: nat, q: nat): (x: nat)
    requires p <= q <= |ranges|
    ensures p <= x <= q && (x < q ==> !ranges[x].Empty()) && forall y :: p <= y < x ==> ranges[y].Empty()
    decreases q - p
  {
    if p == q || !ranges[p].Empty() then p else FirstSome(ranges, p + 1, q)
  }

  /** r stands for the ranges from p to q: it includes them, and has the direction of the first one that is not empty. */
  ghost predicate StandsFor(ranges: seq<Range>, p: nat, q: nat, r: Range) {
    && p < q <= |ranges| && (forall y :: p <= y < q ==> Inside(ranges[y], r))
    && var x := FirstSome(ranges, p, q);
       if x == q then r.Empty() else !r.Empty() && (Backward(r) <==> Backward(ranges[x]))
  }

  lemma {:induction false} MergedStandsFor(ranges: seq<Range>, p: nat, q: nat, t: nat, prev: Range, cur: Range, mayTouch: bool)
    requires StandsFor(ranges, p, q, prev) && StandsFor(ranges, q, t, cur)
    requires Cmp(prev.From(), cur.From()) <= 0 && Overlap(prev, cur, mayTouch)
    ensures StandsFor(ranges, p, t, Merged(prev, cur))
  {
    hide Merged, Overlap, Backward, Inside;
    var r := Merged(prev, cur);
    MergedDirection(prev, cur, mayTouch);
    InsideMerged(prev, cur);
    forall y | p <= y < t ensures Inside(ranges[y], r) { InsideTwice(ranges[y], if y < q then prev else cur, r); }
    FirstSomeJoin(ranges, p, q, t);
  }

  lemma InsideMerged(prev: Range, cur: Range)
    ensures Inside(prev, Merged(prev, cur)) && Inside(cur, Merged(prev, cur))
  {}

  lemma InsideTwice(a: Range, b: Range, c: Range)
    requires Inside(a, b) && Inside(b, c)
    ensures Inside(a, c)
  {}

  lemma MergedDirection(prev: Range, cur: Range, mayTouch: bool)
    requires Cmp(prev.From(), cur.From()) <= 0 && Overlap(prev, cur, mayTouch)
    ensures Merged(prev, cur).Empty() <==> prev.Empty() && cur.Empty()
    ensures !Merged(prev, cur).Empty() ==> (Backward(Merged(prev, cur)) <==> Backward(if prev.Empty() then cur else prev))
  {}

  lemma {:induction false} FirstSomeJoin(ranges: seq<Range>, p: nat, q: nat, t: nat)
    requires p <= q <= t <= |ranges|
    ensures FirstSome(ranges, p, t) == if FirstSome(ranges, p, q) < q then FirstSome(ranges, p, q) else FirstSome(ranges, q, t)
    decreases q - p
  {
    if p < q && ranges[p].Empty() { FirstSomeJoin(ranges, p + 1, q, t); }
  }

  /** Range k of `now` stands for the ranges from bounds[k] to bounds[k + 1], which hang together. */
  ghost predicate Grouped(ranges: seq<Range>, bounds: seq<nat>, now: seq<Range>, mayTouch: bool) {
    && |bounds| == |now| + 1 && bounds[0] == 0 && bounds[|now|] == |ranges|
    && (forall k :: 0 <= k < |now| ==> IsGroup(ranges, bounds[k], bounds[k + 1], now[k], mayTouch))
  }

  ghost predicate IsGroup(ranges: seq<Range>, p: nat, q: nat, r: Range, mayTouch: bool) {
    StandsFor(ranges, p, q, r) && IsChain(ranges, p, q, r, mayTouch)
  }

  /** The ranges given are sorted and fall into groups that hang together, one for each range of `now`. */
  ghost predicate MergesOnlyLinked(given: seq<Range>, now: seq<Range>, mayTouch: bool) {
    exists sorted, bounds ::
      Grouped(sorted, bounds, now, mayTouch) && ByFrom(sorted) && multiset(sorted) == multiset(given)
  }

  ghost function Places(n: nat): seq<nat> {
    seq(n + 1, k => k)
  }

  lemma {:induction false} GroupedStart(ranges: seq<Range>, mayTouch: bool)
    ensures Grouped(ranges, Places(|ranges|), ranges, mayTouch)
  {
    var bounds := Places(|ranges|);
    forall k | 0 <= k < |ranges| ensures IsGroup(ranges, bounds[k], bounds[k + 1], ranges[k], mayTouch) {
      assert FirstSome(ranges, k, k + 1) == if ranges[k].Empty() then k + 1 else k;
    }
  }

  lemma {:induction false} GroupsMerged(ranges: seq<Range>, p: nat, q: nat, t: nat, prev: Range, cur: Range, mayTouch: bool)
    requires IsGroup(ranges, p, q, prev, mayTouch) && IsGroup(ranges, q, t, cur, mayTouch)
    requires Cmp(prev.From(), cur.From()) <= 0 && Overlap(prev, cur, mayTouch)
    ensures IsGroup(ranges, p, t, Merged(prev, cur), mayTouch)
  {
    hide Merged, Overlap, IsChain, Inside;
    MergedStandsFor(ranges, p, q, t, prev, cur, mayTouch);
    ChainsMerged(ranges, p, q, t, prev, cur, mayTouch);
  }

  lemma {:induction false} GroupedMerge(ranges: seq<Range>, bounds: seq<nat>, a: seq<Range>, b: seq<Range>, i: nat, mayTouch: bool)
    requires Grouped(ranges, bounds, a, mayTouch) && IsMerged(a, b, i) && ByFrom(a) && Overlap(a[i - 1], a[i], mayTouch)
    ensures |bounds| == |a| + 1 && Grouped(ranges, Cut(bounds, i, 1), b, mayTouch)
  {
    hide IsGroup, Overlap, Merged;
    var less := Cut(bounds, i, 1);
    assert IsGroup(ranges, bounds[i - 1], bounds[i], a[i - 1], mayTouch) && IsGroup(ranges, bounds[i], bounds[i + 1], a[i], mayTouch);
    GroupsMerged(ranges, bounds[i - 1], bounds[i], bounds[i + 1], a[i - 1], a[i], mayTouch);
    forall k | 0 <= k < |b| ensures IsGroup(ranges, less[k], less[k + 1], b[k], mayTouch) {
      if k < i - 1 {
        assert IsGroup(ranges, bounds[k], bounds[k + 1], a[k], mayTouch) && b[k] == a[k];
      } else if k >= i {
        assert IsGroup(ranges, bounds[k + 1], bounds[k + 2], a[k + 1], mayTouch) && b[k] == a[k + 1];
      }
    }
  }

  /** A range that is not empty has the direction of one of those given, which is not empty and none within it starts before. */
  ghost predicate HasDirection(given: seq<Range>, r: Range) {
    r.Empty() || exists g :: IsFirst(given, r, g) && (Backward(r) <==> Backward(g))
  }

  ghost predicate IsFirst(given: seq<Range>, r: Range, g: Range) {
    && g in given && !g.Empty() && Inside(g, r)
    && forall h :: h in given && !h.Empty() && Inside(h, r) ==> Cmp(g.From(), h.From()) <= 0
  }

  /** Which of the ranges a range among them belongs to. */
  lemma {:induction false} GroupOf(ranges: seq<Range>, bounds: seq<nat>, now: seq<Range>, mayTouch: bool, y: nat, n: nat) returns (k: nat)
    requires Grouped(ranges, bounds, now, mayTouch) && n <= |now| && y < bounds[n]
    ensures k < n && bounds[k] <= y < bounds[k + 1]
    decreases n
  {
    hide IsChain, Inside, FirstSome;
    assert n > 0 && IsGroup(ranges, bounds[n - 1], bounds[n], now[n - 1], mayTouch);
    if y < bounds[n - 1] { k := GroupOf(ranges, bounds, now, mayTouch, y, n - 1); } else { k := n - 1; }
  }

  lemma {:induction false} GroupedDirections(given: seq<Range>, ranges: seq<Range>, bounds: seq<nat>, now: seq<Range>, mayTouch: bool, k: nat)
    requires Grouped(ranges, bounds, now, mayTouch) && Normal(now, mayTouch) && ByFrom(ranges) && multiset(ranges) == multiset(given) && k < |now|
    ensures HasDirection(given, now[k])
  {
    hide IsChain;
    var r := now[k];
    if !r.Empty() {
      assert IsGroup(ranges, bounds[k], bounds[k + 1], r, mayTouch);
      var x := FirstSome(ranges, bounds[k], bounds[k + 1]);
      var g := ranges[x];
      assert g in multiset(ranges);
      forall h | h in given && !h.Empty() && Inside(h, r) ensures Cmp(g.From(), h.From()) <= 0 {
        assert h in multiset(given);
        var y :| 0 <= y < |ranges| && ranges[y] == h;
        OnlyGroup(ranges, bounds, now, mayTouch, k, y);
      }
      assert IsFirst(given, r, g);
    }
  }

  /** A range that is not empty is in no other group than the one whose range includes it. */
  lemma {:induction false} OnlyGroup(ranges: seq<Range>, bounds: seq<nat>, now: seq<Range>, mayTouch: bool, k: nat, y: nat)
    requires Grouped(ranges, bounds, now, mayTouch) && Normal(now, mayTouch) && k < |now| && y < |ranges|
    requires !ranges[y].Empty() && Inside(ranges[y], now[k])
    ensures bounds[k] <= y < bounds[k + 1]
  {
    hide IsChain, FirstSome;
    var j := GroupOf(ranges, bounds, now, mayTouch, y, |now|);
    assert IsGroup(ranges, bounds[j], bounds[j + 1], now[j], mayTouch);
  }

  /**
   * normalizeSelection: sorted, separated ranges that cover the same positions, and a primary
   * range that includes the one it was. Two equal ranges stand for one object here.
   */
  method NormalizeSelection(given: seq<Range>, primary: nat, mayTouch: bool) returns (sel: Selection)
    requires primary < |given|
    ensures Normal(sel.ranges, mayTouch)
    ensures SameCover(given, sel.ranges) && MergesOnlyLinked(given, sel.ranges, mayTouch)
    ensures 0 <= sel.primIndex < |sel.ranges| && Inside(given[primary], sel.ranges[sel.primIndex])
    ensures forall k :: 0 <= k < |sel.ranges| ==> HasDirection(given, sel.ranges[k])
  {
    hide Overlap, Grouped, HasDirection;
    var prim := given[primary];
    var ranges := SortByFrom(given);
    assert prim in multiset(ranges);
    var primIndex := IndexOf(ranges, prim);
    SortedCover(given, ranges);
    ghost var sorted, bounds := ranges, Places(|ranges|);
    GroupedStart(ranges, mayTouch);
    var i: nat := 1;
    while i < |ranges|
      invariant 0 < i <= |ranges| && ByFrom(ranges) && Normal(ranges[..i], mayTouch)
      invariant SameCover(given, ranges) && Grouped(sorted, bounds, ranges, mayTouch)
      invariant 0 <= primIndex < |ranges| && Inside(prim, ranges[primIndex])
      decreases |ranges| - i
    {
      var cur, prev := ranges[i], ranges[i - 1];
      if Overlap(prev, cur, mayTouch) {
        MergeStep(given, ranges, ranges[..i - 1] + [Merged(prev, cur)] + ranges[i + 1..], i, mayTouch, prim, primIndex);
        GroupedMerge(sorted, bounds, ranges, ranges[..i - 1] + [Merged(prev, cur)] + ranges[i + 1..], i, mayTouch);
        bounds := Cut(bounds, i, 1);
        if i <= primIndex { primIndex := primIndex - 1; }
        ranges := ranges[..i - 1] + [Merged(prev, cur)] + ranges[i + 1..];
      } else {
        NextSeparated(ranges, i, mayTouch);
        i := i + 1;
      }
    }
    assert ranges[..i] == ranges;
    sel := Selection(ranges, primIndex);
    forall k | 0 <= k < |ranges| ensures HasDirection(given, ranges[k]) {
      GroupedDirections(given, sorted, bounds, ranges, mayTouch, k);
    }
  }
}
