/** The line tree of codemirror.js as one object: insertion and removal of lines. */
module LineTree {
  import opened Seqs
  import opened Chunks
  import opened ChunkInsert
  import opened ChunkRemove

  // ------------------------------------------------------------------ the document

  ghost predicate SameText(a: map<Id, Line>, b: map<Id, Line>) {
    b.Keys == a.Keys && forall l :: l in a ==> b[l].text == a[l].text && b[l].height == a[l].height
  }

  /** As SameText, and lines that were in no leaf still are not. */
  ghost predicate Released(a: map<Id, Line>, b: map<Id, Line>) {
    SameText(a, b) && forall l :: l in a && a[l].parent == NIL ==> b[l].parent == NIL
  }

  lemma ReleasedTwice(a: map<Id, Line>, b: map<Id, Line>, c: map<Id, Line>)
    requires Released(a, b) && Released(b, c)
    ensures Released(a, c)
  {}

  lemma FreedStays(a: map<Id, Line>, b: map<Id, Line>, cells: seq<Cell>, from: nat, to: nat)
    requires Released(a, b) && Freed(a, cells, from, to)
    ensures Freed(b, cells, from, to)
  {}

  lemma SameTextTwice(a: map<Id, Line>, b: map<Id, Line>, c: map<Id, Line>)
    requires SameText(a, b) && SameText(b, c)
    ensures SameText(a, c)
  {}

  lemma {:induction false} FirstDocument(s: Snap, cells: seq<Cell>)
    requires cells == [Cell(0, 1)] && s.lines == map[0 := Line("", 1, 1)]
    requires s.nodes == map[0 := Chunk(false, [], [1], 1, 1, NIL, cells, [cells], 1), 1 := Chunk(true, [0], [], 0, 1, 0, cells, [], 0)]
    ensures Inv(s, 0, NIL) && Bounds(s, 0, NIL, NIL)
  {
    ConcatOne(cells);
    assert Sum(cells) == SumTo(cells, 0) + 1;
    assert OwnLine(s, 1, 0, cells[0]) && OwnChild(s, 0, s.nodes[0], 0, NIL);
  }

  /** Every line of the document is in the leaf that it names as its parent. */
  lemma {:induction false} AllHeld(s: Snap, root: Id)
    requires Inv(s, root, NIL)
    ensures var flat := s.nodes[root].cells; forall i :: 0 <= i < |flat| ==> flat[i].line in s.lines && s.lines[flat[i].line].parent != NIL
  {
    var flat := s.nodes[root].cells;
    forall i | 0 <= i < |flat| ensures flat[i].line in s.lines && s.lines[flat[i].line].parent != NIL { HolderOf(s, root, root, i); }
  }

  lemma {:induction false} FreshId(used: set<Id>) returns (top: Id)
    ensures forall l :: l in used ==> l < top
    decreases |used|
  {
    top := 0;
    if used != {} {
      var x :| x in used;
      top := FreshId(used - {x});
      if top <= x { top := x + 1; }
      forall l | l in used ensures l < top {
        if l != x { assert l in used - {x}; }
      }
    }
  }

  /** New lines that no leaf holds do not disturb a document. */
  lemma {:induction false} MoreLines(s: Snap, t: Snap, root: Id)
    requires Inv(s, root, NIL) && Bounds(s, root, NIL, NIL)
    requires t.nodes == s.nodes && forall k :: k in s.lines ==> k in t.lines && t.lines[k] == s.lines[k]
    ensures Inv(t, root, NIL) && Bounds(t, root, NIL, NIL)
  {
    forall c | c in t.nodes ensures NodeOk(t, c, root, NIL) {
      assert NodeOk(s, c, root, NIL);
      if s.nodes[c].isLeaf { OtherLeafOk(s, t, c); } else { SameBranchOk(s, t, c, s.nodes[c]); }
    }
    forall c | c in t.nodes ensures SizeOk(t, c, root, NIL, NIL) { assert SizeOk(s, c, root, NIL, NIL); }
  }

  /** The chunk and line objects that make up one document; `root` is the document itself. */
  class Document {
    var nodes: map<Id, Chunk>
    var lines: map<Id, Line>
    var nextId: Id
    const root: Id

    ghost function Shot(): Snap
      reads this
    {
      Snap(nodes, lines)
    }

    /** Identities from nextId on are not in use. */
    ghost predicate Alloc()
      reads this
    {
      forall c :: c in nodes ==> c < nextId
    }

    function ChunkSize(c: Id): int
      requires c in nodes
      reads this
    {
      if nodes[c].isLeaf then |nodes[c].lines| else nodes[c].size
    }

    /** A document with one empty line, as a Doc is made. */
    constructor ()
      ensures Valid() && |Flat()| == 1 && Flat()[0].line in lines && lines[Flat()[0].line].text == ""
    {
      var cells := [Cell(0, 1)];
      ConcatOne(cells);
      assert Sum(cells) == SumTo(cells, 0) + 1;
      root := 0;
      nextId := 2;
      lines := map[0 := Line("", 1, 1)];
      nodes := map[0 := Chunk(false, [], [1], 1, 1, NIL, cells, [cells], 1), 1 := Chunk(true, [0], [], 0, 1, 0, cells, [], 0)];
      new;
      FirstDocument(Shot(), cells);
    }

    /** new Line; it belongs to no leaf yet. */
    method NewLine(text: string, height: int) returns (l: Id)
      requires Valid()
      modifies `lines
      ensures Valid() && l !in old(lines) && lines == old(lines)[l := Line(text, height, NIL)]
    {
      ghost var s := Shot();
      ghost var top := FreshId(lines.Keys);
      assert top !in lines;
      l :| l !in lines;
      lines := lines[l := Line(text, height, NIL)];
      MoreLines(s, Shot(), root);
    }

    // ---------------------------------------------------------------- lines

    method Adopt(moved: seq<Id>, c: Id)
      requires forall l :: l in moved ==> l in lines
      modifies `lines
      ensures IsAdopted(old(lines), lines, moved, c) && SameText(old(lines), lines)
    {
      for i := 0 to |moved|
        invariant IsAdopted(old(lines), lines, moved[..i], c)
      {
        assert moved[..i + 1] == moved[..i] + [moved[i]];
        assert moved[i] in moved;
        lines := lines[moved[i] := lines[moved[i]].(parent := c)];
      }
      assert moved[..|moved|] == moved;
    }

    method SumHeights(ls: seq<Id>, ghost cells: seq<Cell>) returns (height: int)
      requires |cells| == |ls|
      requires forall i :: 0 <= i < |ls| ==> ls[i] in lines && cells[i].height == lines[ls[i]].height
      ensures height == Sum(cells)
    {
      height := 0;
      for i := 0 to |ls|
        invariant height == SumTo(cells, i)
      {
        height := height + lines[ls[i]].height;
      }
    }

    /** new LeafChunk over existing lines, below p. */
    method NewLeaf(ls: seq<Id>, p: Ref, ghost cells: seq<Cell>) returns (leaf: Id)
      requires Alloc() && |cells| == |ls|
      requires forall i :: 0 <= i < |ls| ==> ls[i] in lines && cells[i].height == lines[ls[i]].height
      modifies this
      ensures Alloc() && leaf == old(nextId) && nextId == leaf + 1 && SameText(old(lines), lines)
      ensures nodes == old(nodes)[leaf := Chunk(true, ls, [], 0, Sum(cells), p, cells, [], 0)]
      ensures IsAdopted(old(lines), lines, ls, leaf)
    {
      var height := SumHeights(ls, cells);
      leaf := nextId;
      nextId := nextId + 1;
      nodes := nodes[leaf := Chunk(true, ls, [], 0, height, p, cells, [], 0)];
      Adopt(ls, leaf);
    }

    // ---------------------------------------------------------------- insertion

    /** LeafChunk.insertInner. */
    method InsertIntoLeaf(c: Id, at: nat, newLines: seq<Id>, height: int)
      requires c in nodes && at <= |nodes[c].lines| && at <= |nodes[c].cells| && Loose(Shot(), newLines)
      modifies `nodes, `lines
      ensures Shot() == AfterLeafInsert(old(Shot()), c, at, newLines, height)
      ensures SameText(old(lines), lines)
    {
      var n := nodes[c];
      ghost var s := Shot();
      nodes := nodes[c := n.(height := n.height + height,
                             lines := n.lines[..at] + newLines + n.lines[at..],
                             cells := Splice(n.cells, at, Cells(s, newLines)))];
      Adopt(newLines, c);
      assert lines == Adopted(s.lines, newLines, c);
    }

    /** One new leaf for the lines `from` to `to` of child d of p. */
    method CutLeaf(p: Id, d: Id, at: nat, from: nat, to: nat, ghost n: Chunk) returns (leaf: Id)
      requires Alloc() && p in nodes && d in nodes && p != d && at <= |nodes[p].children|
      requires nodes[d].lines == n.lines && from <= to <= |n.lines| == |n.cells|
      requires forall k :: from <= k < to ==> n.lines[k] in lines && n.cells[k].height == lines[n.lines[k]].height
      modifies this
      ensures Alloc() && IsOneCut(old(Shot()), Shot(), n, p, d, at, leaf, from, to)
      ensures SameText(old(lines), lines)
    {
      hide Sum;
      leaf := NewLeaf(nodes[d].lines[from..to], p, n.cells[from..to]);
      nodes := nodes[d := nodes[d].(height := nodes[d].height - nodes[leaf].height)];
      var children := nodes[p].children;
      nodes := nodes[p := nodes[p].(children := children[..at] + [leaf] + children[at..])];
    }

    /**
     * The part of BranchChunk.insertInner that cuts an overfull leaf: it keeps the odd lines and
     * at least 25, the rest goes into new leaves of 25 behind it.
     */
    method SplitLeaf(p: Id, d: Id, i: nat) returns (ghost leaves: seq<Id>, ghost keep: nat)
      requires Alloc() && Inv(Shot(), root, NIL) && p in nodes && !nodes[p].isLeaf
      requires i < |nodes[p].children| && nodes[p].children[i] == d && d in nodes && nodes[d].isLeaf
      requires |nodes[d].lines| > 50
      modifies this
      ensures Alloc() && 25 <= keep < 50 && IsSplit(old(Shot()), Shot(), p, i, leaves, keep)
      ensures SameText(old(lines), lines)
    {
      ghost var s := Shot();
      assert NodeOk(s, p, root, NIL) && OwnChild(s, p, s.nodes[p], i, NIL) && NodeOk(s, d, root, NIL);
      var remaining := |nodes[d].lines| % 25 + 25;
      leaves := CutLeaves(p, d, i, remaining, |nodes[d].lines| / 25 - 1);
      keep := remaining;
      FinishSplit(p, d, i, remaining, s, leaves);
    }

    method CutLeaves(p: Id, d: Id, i: nat, remaining: nat, ghost m: nat) returns (ghost leaves: seq<Id>)
      requires Alloc() && p in nodes && d in nodes && p != d
      requires i < |nodes[p].children| == |nodes[p].kids| && nodes[p].children[i] == d
      requires LeafOk(Shot(), d, nodes[d])
      requires |nodes[d].lines| == Start(remaining, m)
      modifies this
      ensures Alloc() && IsCutting(old(Shot()), Shot(), p, i, leaves, remaining)
      ensures |nodes[d].lines| == Start(remaining, |leaves|)
      ensures SameText(old(lines), lines)
    {
      ghost var s := Shot();
      var total := |nodes[d].lines|;
      leaves := [];
      var at, pos := i, remaining;
      CuttingStarts(s, p, i, remaining);
      while pos < total
        invariant Alloc() && SameText(s.lines, lines) && IsCutting(s, Shot(), p, i, leaves, remaining)
        invariant pos == Start(remaining, |leaves|) && |leaves| <= m && at == i + |leaves|
      {
        RoomForPiece(remaining, |leaves|, m);
        at := at + 1;
        var leaf := CutNext(p, d, i, at, pos, remaining, s, leaves);
        leaves := leaves + [leaf];
        pos := pos + 25;
      }
      CuttingShape(s, Shot(), p, d, i, leaves, remaining);
    }

    /** The body of that loop. */
    method CutNext(p: Id, d: Id, i: nat, at: nat, pos: nat, remaining: nat, ghost s: Snap, ghost leaves: seq<Id>)
      returns (leaf: Id)
      requires Alloc() && IsCutting(s, Shot(), p, i, leaves, remaining) && s.nodes[p].children[i] == d
      requires LeafOk(s, d, s.nodes[d]) && SameText(s.lines, lines)
      requires at == i + 1 + |leaves|
      requires pos == Start(remaining, |leaves|) && pos + 25 <= |s.nodes[d].lines|
      modifies this
      ensures Alloc() && IsCutting(s, Shot(), p, i, leaves + [leaf], remaining)
      ensures pos + 25 == Start(remaining, |leaves + [leaf]|)
      ensures SameText(s.lines, lines)
    {
      hide IsCutting, IsOneCut, LeafOk;
      ghost var u := Shot();
      CuttingShape(s, u, p, d, i, leaves, remaining);
      CellHeights(s, u, d, p, i, leaves, remaining);
      assert pos + 25 == Start(remaining, |leaves| + 1);
      leaf := CutLeaf(p, d, at, pos, pos + 25, s.nodes[d]);
      CutOneMore(s, u, Shot(), p, d, i, leaves, remaining, leaf);
      SameTextTwice(s.lines, u.lines, lines);
    }

    method FinishSplit(p: Id, d: Id, i: nat, remaining: nat, ghost s: Snap, ghost leaves: seq<Id>)
      requires Alloc() && IsCutting(s, Shot(), p, i, leaves, remaining) && s.nodes[p].children[i] == d
      requires |s.nodes[d].lines| == Start(remaining, |leaves|) && s.nodes[d].height == Sum(s.nodes[d].cells)
      modifies `nodes
      ensures Alloc() && IsSplit(s, Shot(), p, i, leaves, remaining)
    {
      ghost var u, n := Shot(), s.nodes[d];
      CuttingDone(s, u, p, i, leaves, remaining);
      CutsFit(s, u, p, d, i, leaves, remaining);
      nodes := nodes[d := nodes[d].(lines := nodes[d].lines[..remaining], cells := n.cells[..remaining])];
      ghost var pieces := seq(|leaves|, j requires 0 <= j < |leaves| => Piece(n.cells, remaining, j));
      nodes := nodes[p := nodes[p].(kids := nodes[p].kids[..i] + [n.cells[..remaining]] + pieces + nodes[p].kids[i + 1..])];
      CutIsSplit(s, u, Shot(), p, d, i, leaves, remaining);
    }

    // ---------------------------------------------------------------- spilling

    /** new BranchChunk over existing nodes, which get it as their parent. */
    method NewBranch(children: seq<Id>, ghost kids: seq<seq<Cell>>, ghost rank: nat) returns (b: Id)
      requires Alloc() && |kids| == |children|
      requires forall i :: 0 <= i < |children| ==> Counted(Shot(), children[i], kids[i])
      modifies `nodes, `nextId
      ensures Alloc() && b !in old(nodes) && nodes.Keys == old(nodes).Keys + {b}
      ensures nodes[b] == Chunk(false, [], children, |Concat(kids)|, Sum(Concat(kids)), NIL, Concat(kids), kids, rank)
      ensures forall e :: e in old(nodes) ==>
        nodes[e] == if e in children then old(nodes)[e].(parent := b) else old(nodes)[e]
    {
      var size, height := SumChildren(children, kids);
      b := nextId;
      nextId := nextId + 1;
      Reparent(children, b);
      nodes := nodes[b := Chunk(false, [], children, size, height, NIL, Concat(kids), kids, rank)];
    }

    method SumChildren(children: seq<Id>, ghost kids: seq<seq<Cell>>) returns (size: int, height: int)
      requires |kids| == |children|
      requires forall i :: 0 <= i < |children| ==> Counted(Shot(), children[i], kids[i])
      ensures size == |Concat(kids)| && height == Sum(Concat(kids))
    {
      size, height := 0, 0;
      for i := 0 to |children|
        invariant size == |Concat(kids[..i])| && height == Sum(Concat(kids[..i]))
      {
        assert Counted(Shot(), children[i], kids[i]);
        ConcatSnoc(kids, i);
        SumAppend(Concat(kids[..i]), kids[i]);
        size := size + ChunkSize(children[i]);
        height := height + nodes[children[i]].height;
      }
      assert kids[..|kids|] == kids;
    }

    method Reparent(children: seq<Id>, b: Id)
      requires forall i :: 0 <= i < |children| ==> children[i] in nodes
      modifies `nodes
      ensures nodes.Keys == old(nodes).Keys
      ensures forall e :: e in nodes ==>
        nodes[e] == if e in children then old(nodes)[e].(parent := b) else old(nodes)[e]
    {
      for i := 0 to |children|
        invariant nodes.Keys == old(nodes).Keys
        invariant forall e :: e in nodes ==>
          nodes[e] == if e in children[..i] then old(nodes)[e].(parent := b) else old(nodes)[e]
      {
        assert children[..i + 1] == children[..i] + [children[i]];
        nodes := nodes[children[i] := nodes[children[i]].(parent := b)];
      }
      assert children[..|children|] == children;
    }

    /** indexOf(me.parent.children, me). */
    method IndexOf(children: seq<Id>, me: Id) returns (q: nat)
      requires me in children
      ensures q < |children| && children[q] == me
    {
      q := 0;
      while children[q] != me
        invariant q < |children| && me in children[q..]
        decreases |children| - q
      {
        assert children[q..] == [children[q]] + children[q + 1..];
        q := q + 1;
      }
    }

    /** One turn of the loop in maybeSpill for a node that has a parent. */
    method SpillSibling(me: Id) returns (sib: Id, ghost p: Id, ghost q: nat)
      requires Alloc() && Inv(Shot(), root, NIL) && me in nodes && !nodes[me].isLeaf && me != root
      requires |nodes[me].children| > 5
      modifies `nodes, `nextId
      ensures Alloc() && p == old(nodes)[me].parent
      ensures IsSpill(old(Shot()), Shot(), me, p, q, sib)
    {
      hide Concat, Sum, IsSpill;
      ghost var s := Shot();
      SpillFacts(s, root, me);
      p := nodes[me].parent;
      var n := nodes[me];
      var cut := |n.children| - 5;
      ChildrenCounted(s, root, NIL, me);
      sib := NewBranch(n.children[cut..], n.kids[cut..], n.rank);
      ghost var v := Shot();
      q := AttachSibling(me, n, n.parent, cut, sib);
      SpillDone(s, v, Shot(), me, p, q, sib);
    }

    /** me gives up the children that its new sibling took, and the sibling moves in behind it. */
    method AttachSibling(me: Id, n: Chunk, p: Id, cut: nat, sib: Id) returns (q: nat)
      requires Alloc() && me in nodes && p in nodes && sib in nodes && me != p && sib != me && sib != p
      requires cut <= |n.children| == |n.kids| && me in nodes[p].children && |nodes[p].kids| == |nodes[p].children|
      modifies `nodes
      ensures Alloc() && nodes.Keys == old(nodes).Keys
      ensures q < |old(nodes)[p].children| && old(nodes)[p].children[q] == me
      ensures forall e :: e in nodes && e != me && e != p && e != sib ==> nodes[e] == old(nodes)[e]
      ensures nodes[me] == n.(children := n.children[..cut], size := n.size - old(nodes)[sib].size,
        height := n.height - old(nodes)[sib].height, cells := Concat(n.kids[0..cut]), kids := n.kids[0..cut])
      ensures nodes[p] == WithSibling(old(nodes)[p], q, sib, Concat(n.kids[0..cut]), Concat(n.kids[cut..]))
      ensures nodes[sib] == old(nodes)[sib].(parent := p)
    {
      ghost var first, second := Concat(n.kids[0..cut]), Concat(n.kids[cut..]);
      nodes := nodes[me := n.(children := n.children[..cut], size := n.size - nodes[sib].size,
                              height := n.height - nodes[sib].height, cells := first, kids := n.kids[0..cut])];
      q := IndexOf(nodes[p].children, me);
      var pc := nodes[p].children;
      nodes := nodes[p := nodes[p].(children := pc[..q + 1] + [sib] + pc[q + 1..],
                                    kids := nodes[p].kids[..q] + [first, second] + nodes[p].kids[q + 1..])];
      nodes := nodes[sib := nodes[sib].(parent := p)];
    }

    /** The turn of that loop in which the root becomes the parent of its own two halves. */
    method SplitRoot() returns (copy: Id, ghost sib: Id)
      requires Alloc() && Inv(Shot(), root, NIL) && |nodes[root].children| > 5
      modifies `nodes, `nextId
      ensures Alloc() && IsRootSplit(old(Shot()), Shot(), root, copy, sib)
    {
      ghost var s := Shot();
      assert NodeOk(s, root, root, NIL);
      ghost var v, w;
      var spilled;
      copy, spilled, v, w := HalveRoot();
      sib := spilled;
      HalvesApart(s, root, sib);
      RaiseRoot(copy, spilled);
      RootSplitDone(s, v, w, Shot(), root, copy, sib);
    }

    /** Two new branches over the first and the last five children of the root. */
    method HalveRoot() returns (copy: Id, sib: Id, ghost v: Snap, ghost w: Snap)
      requires Alloc() && Inv(Shot(), root, NIL) && |nodes[root].children| > 5
      modifies `nodes, `nextId
      ensures Alloc() && w == Shot() && IsHalved(old(Shot()), v, w, root, copy, sib)
    {
      ghost var s := Shot();
      assert NodeOk(s, root, root, NIL);
      var n := nodes[root];
      var cut := |n.children| - 5;
      ChildrenCounted(s, root, NIL, root);
      sib := NewBranch(n.children[cut..], n.kids[cut..], n.rank);
      v := Shot();
      StillCounted(s, v, n.children, n.kids);
      copy := NewBranch(n.children[..cut], n.kids[..cut], n.rank);
      w := Shot();
    }

    method RaiseRoot(copy: Id, sib: Id)
      requires Alloc() && root in nodes && copy in nodes && sib in nodes && copy != root && sib != root && copy != sib
      requires |nodes[root].kids| == |nodes[root].children| > 5
      modifies `nodes
      ensures Alloc() && IsRaised(old(Shot()), Shot(), root, copy, sib)
    {
      var n := nodes[root];
      ghost var cut := |n.children| - 5;
      nodes := nodes[copy := nodes[copy].(parent := root)];
      nodes := nodes[root := n.(children := [copy, sib],
                                kids := [Concat(n.kids[0..cut]), Concat(n.kids[cut..])], rank := n.rank + 1)];
      nodes := nodes[sib := nodes[sib].(parent := root)];
    }

    /** A node with more than 10 children hands them over, five at a time, and its parent may follow. */
    method MaybeSpill(c: Id)
      requires Alloc() && Inv(Shot(), root, NIL) && c in nodes && !nodes[c].isLeaf
      requires Bounds(Shot(), root, c, NIL)
      modifies `nodes, `nextId
      ensures Alloc() && Inv(Shot(), root, NIL) && Bounds(Shot(), root, NIL, NIL)
      ensures nodes[root].cells == old(nodes[root].cells)
      decreases nodes[root].rank - nodes[c].rank, |nodes[c].children|
    {
      if |nodes[c].children| <= 10 {
        NoLongerOver(Shot(), root, c, NIL);
        return;
      }
      RankBelowRoot(Shot(), root, c);
      var me := c;
      ghost var k := |nodes[c].children|;
      assert NodeOk(Shot(), me, root, NIL);
      if nodes[me].parent == NIL {
        ghost var s := Shot();
        ghost var sib;
        me, sib := SplitRoot();
        RootSplitKeeps(s, Shot(), root, me, sib);
        RootSplitBounds(s, Shot(), root, me, sib);
      } else {
        WiderBounds(Shot(), root, me, nodes[me].parent);
        Spill(me);
      }
      ghost var p := nodes[me].parent;
      while |nodes[me].children| > 10
        invariant Alloc() && Inv(Shot(), root, NIL) && me in nodes && !nodes[me].isLeaf && me != root
        invariant nodes[me].parent == p && p in nodes && !nodes[p].isLeaf
        invariant Bounds(Shot(), root, me, p) && nodes[root].cells == old(nodes[root].cells)
        invariant p == root || nodes[root].rank - nodes[p].rank < old(nodes[root].rank - nodes[c].rank)
        invariant p == root && c == root ==> |nodes[me].children| + 5 * |nodes[p].children| == k + 5 && |nodes[me].children| > 5
        decreases |nodes[me].children|
      {
        Spill(me);
      }
      NoLongerOver(Shot(), root, me, p);
      MaybeSpill(nodes[me].parent);
    }

    method Spill(me: Id)
      requires Alloc() && Inv(Shot(), root, NIL) && me in nodes && !nodes[me].isLeaf && me != root
      requires |nodes[me].children| > 10 && nodes[me].parent in nodes && Bounds(Shot(), root, me, nodes[me].parent)
      modifies `nodes, `nextId
      ensures Alloc() && Inv(Shot(), root, NIL) && me in nodes && !nodes[me].isLeaf
      ensures nodes[me].parent == old(nodes[me].parent) && nodes[me].parent in nodes && !nodes[nodes[me].parent].isLeaf
      ensures Bounds(Shot(), root, me, nodes[me].parent)
      ensures nodes[root].cells == old(nodes[root].cells) && nodes[root].rank == old(nodes[root].rank)
      ensures nodes[nodes[me].parent].rank == old(nodes[nodes[me].parent].rank) > old(nodes[me].rank)
      ensures |nodes[me].children| == old(|nodes[me].children|) - 5
      ensures |nodes[nodes[me].parent].children| == old(|nodes[nodes[me].parent].children|) + 1
    {
      ghost var s := Shot();
      var sib;
      ghost var p, q;
      sib, p, q := SpillSibling(me);
      SpillKeeps(s, Shot(), root, me, p, q, sib);
      SpillBounds(s, Shot(), root, me, p, q, sib);
      SpillCounts(s, Shot(), root, me, p, q, sib);
    }

    // ---------------------------------------------------------------- insert

    /** The child that takes an insertion at `at`: the first one whose end is not before it. */
    method FindInsert(c: Id, at: nat) returns (i: nat, rest: nat)
      requires c in nodes && nodes[c].children != [] && |nodes[c].kids| == |nodes[c].children|
      requires at <= |Concat(nodes[c].kids)|
      requires forall j :: 0 <= j < |nodes[c].children| ==> Counted(Shot(), nodes[c].children[j], nodes[c].kids[j])
      ensures i < |nodes[c].children| && rest <= |nodes[c].kids[i]|
      ensures |Concat(nodes[c].kids[..i])| + rest == at
    {
      i, rest := 0, at;
      ghost var kids := nodes[c].kids;
      assert Counted(Shot(), nodes[c].children[0], kids[0]);
      while rest > ChunkSize(nodes[c].children[i])
        invariant i < |nodes[c].children| && nodes[c].children[i] in nodes
        invariant |Concat(kids[..i])| + rest == at
        invariant Counted(Shot(), nodes[c].children[i], kids[i])
        decreases |kids| - i
      {
        ConcatSnoc(kids, i);
        ConcatAround(kids, i);
        rest := rest - ChunkSize(nodes[c].children[i]);
        i := i + 1;
        assert Counted(Shot(), nodes[c].children[i], kids[i]);
      }
    }

    /** BranchChunk.insertInner. The parent, if any, has already counted the new lines. */
    method InsertIntoBranch(c: Id, at: nat, newLines: seq<Id>, height: int)
      requires Alloc() && Inv(Shot(), root, c) && Bounds(Shot(), root, NIL, NIL)
      requires c in nodes && !nodes[c].isLeaf && at <= |nodes[c].cells|
      requires Loose(Shot(), newLines) && height == Sum(Cells(Shot(), newLines))
      requires Ahead(Shot(), c, Splice(nodes[c].cells, at, Cells(Shot(), newLines)))
      modifies this
      ensures Alloc() && Inv(Shot(), root, NIL) && Bounds(Shot(), root, NIL, NIL) && SameText(old(lines), lines)
      ensures nodes[root].cells ==
        if c == root then Splice(old(nodes[root].cells), at, old(Cells(Shot(), newLines))) else old(nodes[root].cells)
      decreases nodes[c].rank
    {
      hide Splice, Sum, Bounds;
      ghost var s := Shot();
      ghost var added := Cells(s, newLines);
      assert NodeOk(s, c, root, c);
      ChildrenCounted(s, root, c, c);
      var i, rest := FindInsert(c, at);
      EnterKeeps(s, root, c, i, rest, added);
      EnterBounds(s, root, c, i, rest, added);
      var n := nodes[c];
      var d := n.children[i];
      nodes := nodes[c := n.(size := n.size + |newLines|, height := n.height + height,
                             kids := n.kids[i := Splice(n.kids[i], rest, added)],
                             cells := Splice(n.cells, at, added))];
      assert Shot() == AfterEnter(s, c, i, rest, added);
      ChildRank(s, root, c, c, i);
      assert Cells(Shot(), newLines) == added;
      if nodes[d].isLeaf {
        InsertIntoChildLeaf(c, d, i, rest, newLines, height);
      } else {
        InsertIntoBranch(d, rest, newLines, height);
      }
    }

    /** The child is a leaf: if it gets too large it is cut, and the branch may spill. */
    method InsertIntoChildLeaf(p: Id, d: Id, i: nat, at: nat, newLines: seq<Id>, height: int)
      requires Alloc() && Inv(Shot(), root, d) && Bounds(Shot(), root, NIL, NIL)
      requires d in nodes && nodes[d].isLeaf && at <= |nodes[d].cells|
      requires p in nodes && !nodes[p].isLeaf && i < |nodes[p].children| && nodes[p].children[i] == d
      requires Loose(Shot(), newLines) && height == Sum(Cells(Shot(), newLines))
      requires Ahead(Shot(), d, Splice(nodes[d].cells, at, Cells(Shot(), newLines)))
      modifies this
      ensures Alloc() && Inv(Shot(), root, NIL) && Bounds(Shot(), root, NIL, NIL) && SameText(old(lines), lines)
      ensures nodes[root].cells == old(nodes[root].cells)
    {
      ghost var s := Shot();
      assert NodeOk(s, d, root, d);
      LeafInsertKeeps(s, root, d, at, newLines, height);
      LeafInsertBounds(s, root, d, at, newLines, height);
      InsertIntoLeaf(d, at, newLines, height);
      if |nodes[d].lines| > 50 {
        SplitAndSpill(p, d, i);
      } else {
        LeafNotOver(Shot(), root, d);
      }
    }

    method SplitAndSpill(p: Id, d: Id, i: nat)
      requires Alloc() && Inv(Shot(), root, NIL) && Bounds(Shot(), root, d, NIL)
      requires p in nodes && !nodes[p].isLeaf && i < |nodes[p].children| && nodes[p].children[i] == d
      requires d in nodes && nodes[d].isLeaf && |nodes[d].lines| > 50
      modifies this
      ensures Alloc() && Inv(Shot(), root, NIL) && Bounds(Shot(), root, NIL, NIL) && SameText(old(lines), lines)
      ensures nodes[root].cells == old(nodes[root].cells)
    {
      ghost var s := Shot();
      ghost var leaves, keep := SplitLeaf(p, d, i);
      SplitKeeps(s, Shot(), root, p, i, leaves, keep);
      SplitBounds(s, Shot(), root, p, i, leaves, keep);
      MaybeSpill(p);
    }

    ghost predicate Valid()
      reads this
    {
      Alloc() && Inv(Shot(), root, NIL) && Bounds(Shot(), root, NIL, NIL)
    }

    /** The lines of the document, in order. */
    ghost function Flat(): seq<Cell>
      requires Valid()
      reads this
    {
      nodes[root].cells
    }

    /** Doc.insert: the lines appear at `at` in the flat document, and nothing else changes. */
    method Insert(at: nat, newLines: seq<Id>)
      requires Valid() && at <= |Flat()| && Loose(Shot(), newLines)
      modifies this
      ensures Valid() && Flat() == Splice(old(Flat()), at, old(Cells(Shot(), newLines)))
      ensures SameText(old(lines), lines)
    {
      ghost var s := Shot();
      var height := SumHeights(newLines, Cells(s, newLines));
      assert NodeOk(s, root, root, NIL);
      StartAtRoot(s, root);
      InsertIntoBranch(root, at, newLines, height);
    }

    // ---------------------------------------------------------------- removal

    /** Doc.remove: the lines disappear from the flat document, and nothing else changes. */
    method Remove(at: nat, n: nat)
      requires Valid() && n > 0 && at + n <= |Flat()|
      modifies this
      ensures Valid() && Flat() == Cut(old(Flat()), at, n) && Released(old(lines), lines)
      ensures Freed(lines, old(Flat()), at, at + n)
      ensures forall i :: 0 <= i < |Flat()| ==> Flat()[i].line in lines && lines[Flat()[i].line].parent != NIL
    {
      ghost var s := Shot();
      InvIsOffNowhere(s, root);
      BoundsAreSizes(s, root);
      assert {} + {root} == {root};
      ghost var D := RemoveInner(root, at, n, {});
      RootSizes(Shot(), root);
      AllHeld(Shot(), root);
    }

    /** LeafChunk.removeInner: the height goes down line by line, the lines lose their parent. */
    method RemoveFromLeaf(d: Id, at: nat, to: nat)
      requires d in nodes && nodes[d].isLeaf && LeafOk(Shot(), d, nodes[d]) && at <= to <= |nodes[d].lines|
      modifies `nodes, `lines
      ensures IsLeafRemoved(old(Shot()), Shot(), d, at, to) && Released(old(lines), lines)
      ensures Freed(lines, old(nodes)[d].cells, at, to)
    {
      var n := nodes[d];
      ghost var s := Shot();
      CellsAreHeights(s, d, at, to);
      var height := Orphan(n.lines[at..to], n.cells[at..to], n.height);
      nodes := nodes[d := n.(lines := n.lines[..at] + n.lines[to..], height := height, cells := Cut(n.cells, at, to - at))];
      assert at + (to - at) == to;
      LeafFreed(s, Shot(), d, at, to);
    }

    /** The loop over the removed lines: a height without theirs, and no parent for them. */
    method Orphan(gone: seq<Id>, ghost cells: seq<Cell>, start: int) returns (height: int)
      requires |cells| == |gone| && forall i :: 0 <= i < |gone| ==> gone[i] in lines && cells[i].height == lines[gone[i]].height
      modifies `lines
      ensures IsOrphaned(old(lines), lines, gone) && Released(old(lines), lines) && height == start - Sum(cells)
    {
      height := start;
      for i := 0 to |gone|
        invariant IsOrphaned(old(lines), lines, gone[..i]) && height == start - SumTo(cells, i)
      {
        assert gone[..i + 1] == gone[..i] + [gone[i]];
        height := height - lines[gone[i]].height;
        lines := lines[gone[i] := lines[gone[i]].(parent := NIL)];
      }
      assert gone[..|gone|] == gone;
    }

    /** removeInner on either kind of node. */
    method RemoveInner(c: Id, at: nat, k: nat, ghost A: set<Id>) returns (ghost D: set<Id>)
      requires Alloc() && InvOff(Shot(), root, A) && SizeBound(Shot(), A + {root})
      requires c in nodes && c !in A && (c == root || nodes[c].parent in A)
      requires forall a :: a in A ==> a in nodes && nodes[a].rank > nodes[c].rank
      requires k > 0 && at + k <= |nodes[c].cells|
      modifies this
      ensures Alloc() && InvOff(Shot(), root, A) && Released(old(lines), lines)
      ensures Framed(old(Shot()), Shot(), c, A, D, old(nextId)) && nextId >= old(nextId)
      ensures Removed(old(Shot()), Shot(), root, A, c, at, k) && Freed(lines, old(nodes)[c].cells, at, at + k)
      decreases nodes[c].rank, 5
    {
      ghost var s := Shot();
      assert OffOk(s, c, root, A);
      if nodes[c].isLeaf {
        RemoveFromLeaf(c, at, at + k);
        D := {c};
        LeafRemoved(s, Shot(), root, A, c, at, k, nextId);
      } else {
        D := RemoveFromBranch(c, at, k, A);
      }
    }

    /** One turn of the loop in BranchChunk.removeInner that takes lines from child d. */
    method RemoveFromChild(c: Id, i: nat, d: Id, at: nat, rm: nat, ghost A: set<Id>) returns (ghost D: set<Id>)
      requires Alloc() && InvOff(Shot(), root, A) && SizeBound(Shot(), A + {root})
      requires c in A && c in nodes && !nodes[c].isLeaf && i < |nodes[c].children| && nodes[c].children[i] == d
      requires forall a :: a in A ==> a in nodes && nodes[a].rank >= nodes[c].rank
      requires rm > 0 && d in nodes && at + rm <= |nodes[d].cells|
      modifies this
      ensures Alloc() && InvOff(Shot(), root, A) && SizeBound(Shot(), A + {root}) && Released(old(lines), lines)
      ensures IsChildRemoved(old(Shot()), Shot(), A, c, i, d, at, rm, D, old(nextId)) && nextId >= old(nextId)
      ensures Freed(lines, old(nodes)[d].cells, at, at + rm)
      decreases nodes[c].rank, 0, 0
    {
      ghost var s := Shot();
      ChildFacts(s, root, A, c, d);
      var sz, oldHeight := ChunkSize(d), nodes[d].height;
      D := RemoveInner(d, at, rm, A);
      ghost var u := Shot();
      ChildFacts(u, root, A, c, d);
      nodes := nodes[c := nodes[c].(height := nodes[c].height - (oldHeight - nodes[d].height))];
      ghost var v := Shot();
      HeightChangeKeeps(u, v, root, A, c);
      HeightChangeSizes(u, v, A + {root} + Emptied(u, d), c);
      if sz == rm {
        D := FinishEmptied(c, i, d, at, rm, A, s, u, D, old(nextId));
      } else {
        ChildKept(s, u, v, root, A, c, i, d, at, rm, D, old(nextId));
      }
    }

    method FinishEmptied(c: Id, i: nat, d: Id, ghost at: nat, ghost rm: nat, ghost A: set<Id>,
                         ghost s: Snap, ghost u: Snap, ghost D0: set<Id>, ghost next: Id) returns (ghost D: set<Id>)
      requires Alloc() && InvOff(Shot(), root, A) && c in A && c in s.nodes && !s.nodes[c].isLeaf
      requires d in s.nodes && d !in A && d != root && i < |s.nodes[c].children| && s.nodes[c].children[i] == d
      requires Framed(s, u, d, A, D0, next) && Removed(s, u, root, A, d, at, rm) && IsRecached(u, Shot(), c)
      requires nodes[c] == u.nodes[c].(height := u.nodes[c].height - (Sum(s.nodes[d].cells) - Sum(u.nodes[d].cells)))
      requires rm == |s.nodes[d].cells| && SizeBound(Shot(), A + {root} + Emptied(u, d))
      requires forall a :: a in A ==> a in nodes && nodes[a].rank > nodes[d].rank
      modifies `nodes
      ensures Alloc() && InvOff(Shot(), root, A) && SizeBound(Shot(), A + {root})
      ensures IsChildRemoved(s, Shot(), A, c, i, d, at, rm, D, next)
    {
      hide Sum, Concat, SizeBound;
      assert u.nodes[c] == s.nodes[c];
      ghost var V := DropChild(c, i, d, A);
      assert Emptied(u, d) == V;
      ChildDropped(s, u, Shot(), root, A, c, i, d, at, rm, D0, V, next);
      D := D0 + (V * s.nodes.Keys);
    }

    /** A child without lines leaves the list of children; it is no longer part of the document. */
    method DropChild(c: Id, i: nat, d: Id, ghost A: set<Id>) returns (ghost V: set<Id>)
      requires Alloc() && InvOff(Shot(), root, A) && c in A && c in nodes && !nodes[c].isLeaf
      requires i < |nodes[c].children| && nodes[c].children[i] == d && d in nodes && d != root
      requires d !in A && nodes[d].cells == [] && SizeBound(Shot(), A + {root} + Emptied(Shot(), d))
      requires !nodes[d].isLeaf ==>
        |nodes[d].children| == 1 && nodes[d].children[0] in nodes && nodes[nodes[d].children[0]].isLeaf
      requires forall a :: a in A ==> a in nodes && nodes[a].rank > nodes[d].rank
      modifies `nodes
      ensures Alloc() && InvOff(Shot(), root, A) && SizeBound(Shot(), A + {root})
      ensures V == Emptied(old(Shot()), d) && IsDropped(old(Shot()), Shot(), c, i, V) && A !! V
      ensures forall e :: e in V ==> e in old(nodes) && (e == d || old(nodes)[e].parent == d)
    {
      ghost var v := Shot();
      EmptiedSubtree(v, root, A, c, i, d);
      V := Emptied(v, d);
      var gone := {d} + (set e | e in nodes[d].children);
      var children := nodes[c].children;
      nodes := (nodes - gone)[c := nodes[c].(children := children[..i] + children[i + 1..])];
      DroppedChild(v, Shot(), root, A, c, i, d, V);
    }

    /** BranchChunk.removeInner. */
    method RemoveFromBranch(c: Id, at: nat, k: nat, ghost A: set<Id>) returns (ghost D: set<Id>)
      requires Alloc() && InvOff(Shot(), root, A) && SizeBound(Shot(), A + {root})
      requires c in nodes && !nodes[c].isLeaf && c !in A && (c == root || nodes[c].parent in A)
      requires forall a :: a in A ==> a in nodes && nodes[a].rank > nodes[c].rank
      requires k > 0 && at + k <= |nodes[c].cells|
      modifies this
      ensures Alloc() && InvOff(Shot(), root, A) && Released(old(lines), lines)
      ensures Framed(old(Shot()), Shot(), c, A, D, old(nextId)) && nextId >= old(nextId)
      ensures Removed(old(Shot()), Shot(), root, A, c, at, k) && Freed(lines, old(nodes)[c].cells, at, at + k)
      decreases nodes[c].rank, 4
    {
      ghost var s := Shot();
      assert OffOk(s, c, root, A);
      ghost var Q;
      D, Q := RemoveAndCollapse(c, at, k, A);
      Recount(c, A, s, at, k, D, Q, old(nextId));
    }

    /** All that the program does there. */
    method RemoveAndCollapse(c: Id, at: nat, k: nat, ghost A: set<Id>) returns (ghost D: set<Id>, ghost Q: seq<seq<Cell>>)
      requires Alloc() && InvOff(Shot(), root, A) && SizeBound(Shot(), A + {root})
      requires c in nodes && !nodes[c].isLeaf && c !in A
      requires forall a :: a in A ==> a in nodes && nodes[a].rank > nodes[c].rank
      requires k > 0 && at + k <= |nodes[c].cells|
      modifies this
      ensures Alloc() && InvOff(Shot(), root, A + {c}) && Released(old(lines), lines) && nextId >= old(nextId)
      ensures Framed(old(Shot()), Shot(), c, A, D, old(nextId)) && c in D && IsSettled(Shot(), root, A, c, Q)
      ensures Concat(Q) == Cut(old(nodes[c].cells), at, k)
      ensures nodes[c] == old(nodes)[c].(size := |old(nodes)[c].cells| - k, height := Sum(Concat(Q)), children := nodes[c].children)
      ensures Freed(lines, old(nodes)[c].cells, at, at + k)
      decreases nodes[c].rank, 3, 1
    {
      ghost var s := Shot();
      KidsOfBranch(s, root, A, c);
      D, Q := RemoveLines(c, at, k, A);
      ghost var u, later := Shot(), nextId;
      ghost var E;
      E, Q := CollapseIfSmall(c, A, Q);
      FrameGrows(s, u, Shot(), root, A, c, D, E, old(nextId), later);
      ReleasedTwice(s.lines, u.lines, lines);
      FreedStays(u.lines, lines, s.nodes[c].cells, at, at + k);
      D := D + (E * s.nodes.Keys);
    }

    /** Size and height of c agree again with its children; ghost fields follow. */
    method Recount(c: Id, ghost A: set<Id>, ghost s: Snap, ghost at: nat, ghost k: nat, ghost D: set<Id>,
                   ghost Q: seq<seq<Cell>>, ghost next: Id)
      requires Alloc() && c in s.nodes && c !in A && Framed(s, Shot(), c, A, D, next) && c in D
      requires (s.nodes[c].parent == NIL || s.nodes[c].parent in A) && !s.nodes[c].isLeaf
      requires InvOff(Shot(), root, A + {c}) && IsSettled(Shot(), root, A, c, Q) && at + k <= |s.nodes[c].cells|
      requires nodes[c] == s.nodes[c].(size := |s.nodes[c].cells| - k, height := Sum(Concat(Q)), children := nodes[c].children)
      requires Concat(Q) == Cut(s.nodes[c].cells, at, k)
      modifies `nodes
      ensures Alloc() && InvOff(Shot(), root, A) && Framed(s, Shot(), c, A, D, next)
      ensures Removed(s, Shot(), root, A, c, at, k)
    {
      ghost var u := Shot();
      assert u.nodes[c].children != [];
      nodes := nodes[c := nodes[c].(kids := Q, cells := Concat(Q))];
      RecountedKids(u, Shot(), c, Q);
      RecountKeeps(u, Shot(), root, A + {c}, c);
      assert A + {c} - {c} == A;
      SettledSizes(u, Shot(), root, A, c, Q);
    }

    /** A branch with fewer than 25 lines becomes a branch over one leaf, unless it already is. */
    method CollapseIfSmall(c: Id, ghost A: set<Id>, ghost Q0: seq<seq<Cell>>) returns (ghost E: set<Id>, ghost Q: seq<seq<Cell>>)
      requires Alloc() && InvOff(Shot(), root, A + {c}) && SizeBound(Shot(), A + {c} + {root})
      requires c in nodes && !nodes[c].isLeaf && c !in A && KidsAre(Shot(), c, Q0) && nodes[c].size == |Concat(Q0)|
      requires forall a :: a in A ==> a in nodes && nodes[a].rank > nodes[c].rank
      requires nodes[c].rank > 0
      modifies this
      ensures Alloc() && InvOff(Shot(), root, A + {c}) && Released(old(lines), lines) && nextId >= old(nextId)
      ensures c in nodes && nodes[c] == old(nodes)[c].(children := nodes[c].children)
      ensures IsSettled(Shot(), root, A, c, Q) && Concat(Q) == Concat(Q0)
      ensures Below(old(Shot()), Shot(), c, A, E, old(nextId))
    {
      if nodes[c].size < 25 && (|nodes[c].children| != 1 || !nodes[nodes[c].children[0]].isLeaf) {
        E, Q := Collapse(c, A, Q0);
      } else {
        E, Q := {}, Q0;
        SizeMore(Shot(), A + {c} + {root}, A + {c} + {root} + (if Concat(Q) == [] then set d | d in nodes[c].children else {}));
      }
    }

    /** The two statements that do so. */
    method Collapse(c: Id, ghost A: set<Id>, ghost Q0: seq<seq<Cell>>) returns (ghost V: set<Id>, ghost Q: seq<seq<Cell>>)
      requires Alloc() && InvOff(Shot(), root, A + {c}) && SizeBound(Shot(), A + {c} + {root})
      requires c in nodes && !nodes[c].isLeaf && c !in A && KidsAre(Shot(), c, Q0) && |Concat(Q0)| < 25
      requires forall a :: a in A ==> a in nodes && nodes[a].rank > nodes[c].rank
      requires nodes[c].rank > 0
      modifies this
      ensures Alloc() && InvOff(Shot(), root, A + {c}) && Released(old(lines), lines) && nextId >= old(nextId)
      ensures c in nodes && nodes[c] == old(nodes)[c].(children := nodes[c].children)
      ensures IsSettled(Shot(), root, A, c, Q) && Concat(Q) == Concat(Q0)
      ensures Below(old(Shot()), Shot(), c, A, V, old(nextId))
    {
      ghost var s := Shot();
      var ls, gone;
      ls, gone := GatherChildren(c, Q0, A + {c});
      ghost var cells := Concat(Q0);
      V := gone;
      CollapseFacts(s, root, A, c, V, ls, cells);
      var leaf := ReplaceByLeaf(c, ls, gone, cells);
      Q := [cells];
      ConcatOne(cells);
      CollapseKeeps(s, Shot(), root, A + {c}, c, V, leaf, ls, cells);
      CollapseSettled(s, Shot(), root, A, c, V, leaf, ls, cells, nextId - 1);
    }

    method ReplaceByLeaf(c: Id, ls: seq<Id>, gone: set<Id>, ghost cells: seq<Cell>) returns (leaf: Id)
      requires Alloc() && c in nodes && c !in gone && IsForest(Shot(), c, nodes[c].children, gone)
      requires IsGathered(Shot(), gone, ls, cells)
      modifies this
      ensures Alloc() && leaf == old(nextId) && nextId == old(nextId) + 1 && Released(old(lines), lines)
      ensures IsCollapsed(old(Shot()), Shot(), c, gone, leaf, ls, cells)
    {
      ghost var s := Shot();
      GatheredLines(s, gone, ls, cells);
      forall i | 0 <= i < |ls| ensures ls[i] in lines && cells[i].height == lines[ls[i]].height {
        assert HeldIn(s, gone, ls[i], cells[i]);
      }
      leaf := NewLeaf(ls, c, cells);
      nodes := (nodes - gone)[c := nodes[c].(children := [leaf])];
    }

    /** LeafChunk.collapse and BranchChunk.collapse: the lines below d, in order. */
    method Gather(d: Id, ghost A: set<Id>) returns (ls: seq<Id>, V: set<Id>)
      requires InvOff(Shot(), root, A) && d in nodes && d !in A && d != root
      requires forall a :: a in A ==> a in nodes && nodes[a].rank > nodes[d].rank
      ensures nodes[d].parent in nodes && IsForest(Shot(), nodes[d].parent, [d], V)
      ensures IsGathered(Shot(), V, ls, nodes[d].cells)
      decreases nodes[d].rank, 1
    {
      assert OffOk(Shot(), d, root, A);
      if nodes[d].isLeaf {
        ls, V := nodes[d].lines, {d};
        LeafGathered(Shot(), d);
        LeafForest(Shot(), root, A, d);
      } else {
        KidsOfBranch(Shot(), root, A, d);
        ls, V := GatherChildren(d, nodes[d].kids, A);
        ForestWithTop(Shot(), root, A, d, V);
        MoreGathered(Shot(), V, V + {d}, ls, nodes[d].cells);
        V := V + {d};
      }
    }

    method GatherChildren(c: Id, ghost Q: seq<seq<Cell>>, ghost A: set<Id>) returns (ls: seq<Id>, V: set<Id>)
      requires InvOff(Shot(), root, A) && c in nodes && !nodes[c].isLeaf && KidsAre(Shot(), c, Q)
      requires forall a :: a in A ==> a in nodes && nodes[a].rank >= nodes[c].rank
      requires c in A || forall a :: a in A ==> nodes[a].rank > nodes[c].rank
      ensures IsForest(Shot(), c, nodes[c].children, V) && IsGathered(Shot(), V, ls, Concat(Q))
      decreases nodes[c].rank, 0
    {
      ls, V := [], {};
      ghost var s, children := Shot(), nodes[c].children;
      for i := 0 to |nodes[c].children|
        invariant IsForest(s, c, children[..i], V) && IsGathered(s, V, ls, Concat(Q[..i]))
      {
        ls, V := GatherNext(c, i, Q, A, ls, V);
      }
      assert children[..|children|] == children && Q[..|Q|] == Q;
    }

    method GatherNext(c: Id, i: nat, ghost Q: seq<seq<Cell>>, ghost A: set<Id>, ls0: seq<Id>, V0: set<Id>)
      returns (ls: seq<Id>, V: set<Id>)
      requires InvOff(Shot(), root, A) && c in nodes && !nodes[c].isLeaf && KidsAre(Shot(), c, Q) && i < |Q|
      requires forall a :: a in A ==> a in nodes && nodes[a].rank >= nodes[c].rank
      requires IsForest(Shot(), c, nodes[c].children[..i], V0) && IsGathered(Shot(), V0, ls0, Concat(Q[..i]))
      ensures IsForest(Shot(), c, nodes[c].children[..i + 1], V) && IsGathered(Shot(), V, ls, Concat(Q[..i + 1]))
      decreases nodes[c].rank, 0, 0
    {
      var d := nodes[c].children[i];
      GatherFacts(Shot(), root, A, c, i, Q);
      var more, W := Gather(d, A);
      GatherStep(Shot(), root, A, c, i, Q, ls0, V0, more, W);
      ls, V := ls0 + more, V0 + W;
    }

    /** The loop over the children: Q is what each of them still holds. */
    method RemoveLines(c: Id, at: nat, k: nat, ghost A: set<Id>) returns (ghost D: set<Id>, ghost Q: seq<seq<Cell>>)
      requires Alloc() && InvOff(Shot(), root, A) && SizeBound(Shot(), A + {root})
      requires c in nodes && !nodes[c].isLeaf && c !in A
      requires forall a :: a in A ==> a in nodes && nodes[a].rank > nodes[c].rank
      requires k > 0 && at + k <= |nodes[c].cells|
      modifies this
      ensures Alloc() && Released(old(lines), lines) && nextId >= old(nextId)
      ensures IsStripped(old(Shot()), Shot(), root, A, c, at, k, 0, D, Q, old(nextId))
      ensures Freed(lines, old(nodes)[c].cells, at, at + k)
      decreases nodes[c].rank, 3, 0
    {
      ghost var s := Shot();
      KidsOfBranch(s, root, A, c);
      nodes := nodes[c := nodes[c].(size := nodes[c].size - k)];
      StrippedStart(s, Shot(), root, A, c, at, k, nextId);
      D, Q := StripLoop(s, c, at, k, A, nextId);
    }

    method StripLoop(ghost s: Snap, c: Id, at: nat, k: nat, ghost A: set<Id>, ghost next: Id)
      returns (ghost D: set<Id>, ghost Q: seq<seq<Cell>>)
      requires Alloc() && Released(s.lines, lines) && nextId >= next && InvOff(s, root, A) && c in s.nodes && !s.nodes[c].isLeaf
      requires IsStripped(s, Shot(), root, A, c, at, k, k, {c}, s.nodes[c].kids, next) && c !in A
      requires forall a :: a in A ==> a in s.nodes && s.nodes[a].rank > s.nodes[c].rank
      modifies this
      ensures Alloc() && Released(s.lines, lines) && nextId >= old(nextId)
      ensures IsStripped(s, Shot(), root, A, c, at, k, 0, D, Q, next) && Freed(lines, s.nodes[c].cells, at, at + k)
      decreases nodes[c].rank, 1
    {
      D, Q := {c}, s.nodes[c].kids;
      var i: nat, rest: nat, n: nat := 0, at, k;
      while i < |nodes[c].children| && n > 0
        invariant Alloc() && Released(s.lines, lines) && nextId >= old(nextId)
        invariant IsStripped(s, Shot(), root, A, c, at, k, n, D, Q, next) && Freed(lines, s.nodes[c].cells, at, at + k - n)
        invariant i <= |Q| && (n > 0 ==> |Concat(Q[..i])| + rest == at)
        decreases |nodes[c].children| - i
      {
        i, rest, n, D, Q := StripTurn(s, c, at, k, n, A, D, Q, next, i, rest);
      }
      AllTaken(Q, i, rest, at, n);
    }

    /** The turn in which child i has some of the lines. */
    method StripSome(ghost s: Snap, c: Id, ghost at: nat, ghost k: nat, n: nat, ghost A: set<Id>,
                     ghost D0: set<Id>, ghost Q0: seq<seq<Cell>>, ghost next: Id, i: nat, child: Id, rest: nat, sz: nat)
      returns (i': nat, n': nat, ghost D: set<Id>, ghost Q: seq<seq<Cell>>)
      requires Alloc() && InvOff(s, root, A) && IsStripped(s, Shot(), root, A, c, at, k, n, D0, Q0, next) && !s.nodes[c].isLeaf
      requires forall a :: a in A + {c} ==> a in nodes && nodes[a].rank >= nodes[c].rank
      requires nextId >= next && i < |Q0| && nodes[c].children[i] == child && child in nodes
      requires nodes[child].parent == c && nodes[child].cells == Q0[i]
      requires |Concat(Q0[..i])| + rest == at && n > 0 && rest < sz == |Q0[i]|
      requires Released(s.lines, lines)
      requires Freed(lines, s.nodes[c].cells, at, at + k - n)
      modifies this
      ensures Alloc() && Released(s.lines, lines) && nextId >= old(nextId)
      ensures IsStripped(s, Shot(), root, A, c, at, k, n', D, Q, next) && Freed(lines, s.nodes[c].cells, at, at + k - n')
      ensures i' <= |Q| && (n' > 0 ==> |Concat(Q[..i'])| == at)
      ensures |nodes[c].children| - i' < |old(nodes)[c].children| - i
      decreases nodes[c].rank, 0, 2
    {
      hide Freed, Released;
      var rm: nat := if n < sz - rest then n else sz - rest;
      D, Q := StripOne(s, c, at, k, n, A, D0, Q0, next, i, child, rest, rm);
      i' := if sz == rm then i else i + 1;
      n' := n - rm;
    }

    /** One turn of that loop. */
    method StripTurn(ghost s: Snap, c: Id, ghost at: nat, ghost k: nat, n: nat, ghost A: set<Id>,
                     ghost D0: set<Id>, ghost Q0: seq<seq<Cell>>, ghost next: Id, i: nat, rest: nat)
      returns (i': nat, rest': nat, n': nat, ghost D: set<Id>, ghost Q: seq<seq<Cell>>)
      requires Alloc() && Released(s.lines, lines) && nextId >= next && InvOff(s, root, A)
      requires IsStripped(s, Shot(), root, A, c, at, k, n, D0, Q0, next) && !s.nodes[c].isLeaf && c !in A
      requires forall a :: a in A ==> a in s.nodes && s.nodes[a].rank > s.nodes[c].rank
      requires i < |nodes[c].children| && n > 0 && i <= |Q0| && |Concat(Q0[..i])| + rest == at
      requires Freed(lines, s.nodes[c].cells, at, at + k - n)
      modifies this
      ensures Alloc() && Released(s.lines, lines) && nextId >= old(nextId)
      ensures IsStripped(s, Shot(), root, A, c, at, k, n', D, Q, next) && Freed(lines, s.nodes[c].cells, at, at + k - n')
      ensures i' <= |Q| && (n' > 0 ==> |Concat(Q[..i'])| + rest' == at)
      ensures |nodes[c].children| - i' < old(|nodes[c].children| - i)
      decreases nodes[c].rank, 0, 3
    {
      var child := nodes[c].children[i];
      StrippedChild(s, Shot(), root, A, c, at, k, n, D0, Q0, next, i);
      var sz := ChunkSize(child);
      if rest < sz {
        i', n', D, Q := StripSome(s, c, at, k, n, A, D0, Q0, next, i, child, rest, sz);
        rest' := 0;
      } else {
        ConcatSnoc(Q0, i);
        D, Q, n' := D0, Q0, n;
        rest' := rest - sz;
        i' := i + 1;
      }
    }

    /** The turn of that loop that takes rm lines from child i. */
    method StripOne(ghost s: Snap, c: Id, ghost at: nat, ghost k: nat, ghost n: nat, ghost A: set<Id>,
                    ghost D0: set<Id>, ghost Q0: seq<seq<Cell>>, ghost next: Id, i: nat, child: Id, rest: nat, rm: nat)
      returns (ghost D: set<Id>, ghost Q: seq<seq<Cell>>)
      requires Alloc() && InvOff(s, root, A) && IsStripped(s, Shot(), root, A, c, at, k, n, D0, Q0, next) && !s.nodes[c].isLeaf
      requires forall a :: a in A + {c} ==> a in nodes && nodes[a].rank >= nodes[c].rank
      requires nextId >= next && i < |Q0| && nodes[c].children[i] == child && child in nodes
      requires nodes[child].parent == c && nodes[child].cells == Q0[i]
      requires |Concat(Q0[..i])| + rest == at && 0 < rm <= n && rest + rm <= |Q0[i]| && (rm == n || rest + rm == |Q0[i]|)
      requires Released(s.lines, lines)
      requires Freed(lines, s.nodes[c].cells, at, at + k - n)
      modifies this
      ensures Alloc() && Released(s.lines, lines) && nextId >= old(nextId)
      ensures IsStripped(s, Shot(), root, A, c, at, k, n - rm, D, Q, next) && Freed(lines, s.nodes[c].cells, at, at + k - n + rm)
      ensures |nodes[c].children| == if rm == |Q0[i]| then |old(nodes)[c].children| - 1 else |old(nodes)[c].children|
      ensures rm < n ==> var j := if rm == |Q0[i]| then i else i + 1; j <= |Q| && |Concat(Q[..j])| == at
      ensures (if rm == |Q0[i]| then i else i + 1) <= |Q|
      decreases nodes[c].rank, 0, 1
    {
      ghost var u, later := Shot(), nextId;
      ghost var E := RemoveFromChild(c, i, child, rest, rm, A + {c});
      StrippedMore(s, u, Shot(), root, A, c, at, k, n, D0, Q0, next, i, child, rest, rm, E, later);
      ReleasedTwice(s.lines, u.lines, lines);
      FreedStays(u.lines, lines, s.nodes[c].cells, at, at + k - n);
      StrippedFreed(s, u, c, at, k, n, Q0, i, rest, rm, lines);
      D, Q := D0 + (E * s.nodes.Keys), Without(Q0, i, rest, rm);
    }
  }
}
