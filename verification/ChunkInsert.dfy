/** What one insertion does to the chunks, step by step, and why each step keeps them consistent. */
module ChunkInsert {
  import opened Seqs
  import opened Chunks

  // ------------------------------------------------------------------ one step of an insertion

  ghost function AfterLeafInsert(s: Snap, c: Id, at: nat, lines: seq<Id>, height: int): Snap
    requires c in s.nodes && at <= |s.nodes[c].lines| && at <= |s.nodes[c].cells|
    requires Loose(s, lines)
  {
    var n := s.nodes[c];
    Snap(s.nodes[c := n.(lines := Splice(n.lines, at, lines),
                        cells := Splice(n.cells, at, Cells(s, lines)),
                        height := n.height + height)],
         Adopted(s.lines, lines, c))
  }

  lemma {:induction false} LeafInsertKeeps(s: Snap, root: Id, c: Id, at: nat, lines: seq<Id>, height: int)
    requires Inv(s, root, c) && c in s.nodes && s.nodes[c].isLeaf
    requires at <= |s.nodes[c].lines| && at <= |s.nodes[c].cells|
    requires Loose(s, lines) && height == Sum(Cells(s, lines))
    requires Ahead(s, c, Splice(s.nodes[c].cells, at, Cells(s, lines)))
    ensures Inv(AfterLeafInsert(s, c, at, lines, height), root, NIL)
  {
    var t := AfterLeafInsert(s, c, at, lines, height);
    assert NodeOk(s, c, root, c);
    forall d | d in t.nodes ensures NodeOk(t, d, root, NIL) {
      assert NodeOk(s, d, root, c);
      if d == c {
        InsertedLeafOk(s, c, at, lines, height);
        SumSplice(s.nodes[c].cells, at, Cells(s, lines));
      } else if s.nodes[d].isLeaf {
        OtherLeafOk(s, t, d);
      } else {
        OtherBranchOk(s, t, d, c);
      }
    }
  }

  lemma {:induction false} InsertedLeafOk(s: Snap, c: Id, at: nat, lines: seq<Id>, height: int)
    requires c in s.nodes && LeafOk(s, c, s.nodes[c]) && at <= |s.nodes[c].lines| && Loose(s, lines)
    ensures var t := AfterLeafInsert(s, c, at, lines, height); LeafOk(t, c, t.nodes[c])
  {
    var n, t := s.nodes[c], AfterLeafInsert(s, c, at, lines, height);
    var m := t.nodes[c];
    forall l | l in lines ensures l !in n.lines {}
    NoDupSplice(n.lines, at, lines);
    forall i | 0 <= i < |m.lines| ensures OwnLine(t, c, m.lines[i], m.cells[i]) {
      if i < at {
        assert OwnLine(s, c, n.lines[i], n.cells[i]);
      } else if i >= at + |lines| {
        var k := i - |lines|;
        assert OwnLine(s, c, n.lines[k], n.cells[k]);
        assert m.lines[i] == n.lines[k] && m.cells[i] == n.cells[k];
      }
    }
  }

  /** A leaf that was not touched, whose lines were not moved. */
  lemma {:induction false} OtherLeafOk(s: Snap, t: Snap, d: Id)
    requires d in s.nodes && LeafOk(s, d, s.nodes[d])
    requires forall l :: l in s.lines && s.lines[l].parent == d ==> l in t.lines && t.lines[l] == s.lines[l]
    ensures LeafOk(t, d, s.nodes[d])
  {
    var n := s.nodes[d];
    forall i | 0 <= i < |n.lines| ensures OwnLine(t, d, n.lines[i], n.cells[i]) {
      assert OwnLine(s, d, n.lines[i], n.cells[i]);
    }
  }

  /** A branch that was not touched; child c, whose entry was ahead, has caught up. */
  lemma {:induction false} OtherBranchOk(s: Snap, t: Snap, d: Id, c: Id)
    requires d in s.nodes && BranchOk(s, d, s.nodes[d], c)
    requires c in t.nodes && s.nodes.Keys <= t.nodes.Keys
    requires forall e :: e in s.nodes && s.nodes[e].parent == d ==>
      t.nodes[e].parent == d && t.nodes[e].rank == s.nodes[e].rank && (e != c ==> t.nodes[e].cells == s.nodes[e].cells)
    requires c in s.nodes && Ahead(s, c, t.nodes[c].cells)
    ensures BranchOk(t, d, s.nodes[d], NIL)
  {
    var n := s.nodes[d];
    forall i | 0 <= i < |n.children| ensures OwnChild(t, d, n, i, NIL) {
      assert OwnChild(s, d, n, i, c);
    }
  }

  /** A branch counts the new lines before it hands them to child i. */
  ghost function AfterEnter(s: Snap, c: Id, i: nat, at: nat, added: seq<Cell>): Snap
    requires c in s.nodes && i < |s.nodes[c].kids| && at <= |s.nodes[c].kids[i]|
    requires |Concat(s.nodes[c].kids[..i])| + at <= |s.nodes[c].cells|
  {
    var n := s.nodes[c];
    s.(nodes := s.nodes[c := n.(size := n.size + |added|,
                                height := n.height + Sum(added),
                                kids := n.kids[i := Splice(n.kids[i], at, added)],
                                cells := Splice(n.cells, |Concat(n.kids[..i])| + at, added))])
  }

  lemma {:induction false} EnterKeeps(s: Snap, root: Id, c: Id, i: nat, at: nat, added: seq<Cell>)
    requires Inv(s, root, c) && c in s.nodes && !s.nodes[c].isLeaf
    requires i < |s.nodes[c].children| && i < |s.nodes[c].kids| && at <= |s.nodes[c].kids[i]|
    requires |Concat(s.nodes[c].kids[..i])| + at <= |s.nodes[c].cells|
    requires Ahead(s, c, Splice(s.nodes[c].cells, |Concat(s.nodes[c].kids[..i])| + at, added))
    ensures var d := s.nodes[c].children[i];
      var t := AfterEnter(s, c, i, at, added);
      Inv(t, root, d) && d in s.nodes && d != c && t.nodes[d] == s.nodes[d] && at <= |s.nodes[d].cells| &&
      s.nodes[d].parent == c && Ahead(t, d, Splice(s.nodes[d].cells, at, added))
  {
    var t, n := AfterEnter(s, c, i, at, added), s.nodes[c];
    var d := n.children[i];
    assert NodeOk(s, c, root, c);
    assert OwnChild(s, c, n, i, c);
    assert NodeOk(s, d, root, c);
    NotOwnParent(s, c, root, c);
    EnteredOk(s, root, c, i, at, added);
    forall e | e in t.nodes ensures NodeOk(t, e, root, d) {
      if e != c {
        assert NodeOk(s, e, root, c);
        BesideEnteredOk(s, t, root, c, d, e);
      }
    }
  }

  lemma {:induction false} EnteredOk(s: Snap, root: Id, c: Id, i: nat, at: nat, added: seq<Cell>)
    requires c in s.nodes && root in s.nodes && NodeOk(s, c, root, c) && !s.nodes[c].isLeaf
    requires i < |s.nodes[c].children| && i < |s.nodes[c].kids| && at <= |s.nodes[c].kids[i]|
    requires |Concat(s.nodes[c].kids[..i])| + at <= |s.nodes[c].cells|
    requires s.nodes[c].parent != c
    ensures NodeOk(AfterEnter(s, c, i, at, added), c, root, s.nodes[c].children[i])
  {
    var t, n := AfterEnter(s, c, i, at, added), s.nodes[c];
    SumSplice(n.cells, |Concat(n.kids[..i])| + at, added);
    ConcatSplice(n.kids, i, at, added);
    forall j | 0 <= j < |n.children| ensures OwnChild(t, c, t.nodes[c], j, n.children[i]) {
      assert OwnChild(s, c, n, j, c);
    }
  }

  lemma {:induction false} BesideEnteredOk(s: Snap, t: Snap, root: Id, c: Id, d: Id, e: Id)
    requires root in s.nodes && c in s.nodes && e in s.nodes && e != c && NodeOk(s, e, root, c)
    requires t.lines == s.lines && c in t.nodes && t.nodes == s.nodes[c := t.nodes[c]]
    requires t.nodes[c].isLeaf == s.nodes[c].isLeaf && t.nodes[c].children == s.nodes[c].children
    requires t.nodes[c].rank == s.nodes[c].rank && t.nodes[c].parent == s.nodes[c].parent
    requires Ahead(s, c, t.nodes[c].cells)
    ensures NodeOk(t, e, root, d)
  {
    if s.nodes[e].isLeaf {
      OtherLeafOk(s, t, e);
    } else {
      OtherBranchOk(s, t, e, c);
      forall j | 0 <= j < |s.nodes[e].children| ensures OwnChild(t, e, t.nodes[e], j, d) {
        assert OwnChild(t, e, t.nodes[e], j, NIL);
      }
    }
  }

  // ------------------------------------------------------------------ splitting an overfull leaf

  /** t is s after child i of p has kept `keep` lines and given the rest, 25 at a time, to `leaves`. */
  ghost predicate IsSplit(s: Snap, t: Snap, p: Id, i: nat, leaves: seq<Id>, keep: nat) {
    && p in s.nodes && i < |s.nodes[p].children| == |s.nodes[p].kids|
    && var d := s.nodes[p].children[i];
    && d in s.nodes && d != p && |s.nodes[d].lines| == |s.nodes[d].cells| == Start(keep, |leaves|)
    && NoDup(leaves) && (forall j :: 0 <= j < |leaves| ==> IsNewLeaf(s, t, p, d, leaves[j], keep, j))
    && t.nodes.Keys == s.nodes.Keys + (set e | e in leaves)
    && (forall e :: e in s.nodes && e != p && e != d ==> t.nodes[e] == s.nodes[e])
    && t.nodes[d] == Trimmed(s.nodes[d], keep)
    && t.nodes[p] == Spread(s.nodes[p], i, leaves, s.nodes[d].cells[..keep], seq(|leaves|, j requires 0 <= j < |leaves| => Piece(s.nodes[d].cells, keep, j)))
    && t.lines.Keys == s.lines.Keys
    && (forall l :: l in s.lines && l !in s.nodes[d].lines[keep..] ==> t.lines[l] == s.lines[l])
  }

  ghost function Trimmed(n: Chunk, keep: nat): Chunk
    requires keep <= |n.lines| == |n.cells|
  {
    n.(lines := n.lines[..keep], cells := n.cells[..keep], height := Sum(n.cells[..keep]))
  }

  ghost function Spread(n: Chunk, i: nat, leaves: seq<Id>, kept: seq<Cell>, pieces: seq<seq<Cell>>): Chunk
    requires i < |n.children| == |n.kids|
  {
    n.(children := n.children[..i + 1] + leaves + n.children[i + 1..],
       kids := n.kids[..i] + [kept] + pieces + n.kids[i + 1..])
  }

  ghost predicate IsNewLeaf(s: Snap, t: Snap, p: Id, d: Id, leaf: Id, keep: nat, j: nat)
    requires d in s.nodes
  {
    && leaf !in s.nodes && leaf in t.nodes
    && PieceFits(s.nodes[d].lines, keep, j) && PieceFits(s.nodes[d].cells, keep, j)
    && var cells := Piece(s.nodes[d].cells, keep, j);
    && t.nodes[leaf] == Chunk(true, Piece(s.nodes[d].lines, keep, j), [], 0, Sum(cells), p, cells, [], 0)
    && forall l :: l in Piece(s.nodes[d].lines, keep, j) ==>
         l in s.lines && l in t.lines && t.lines[l] == s.lines[l].(parent := leaf)
  }

  lemma {:induction false} SplitKeeps(s: Snap, t: Snap, root: Id, p: Id, i: nat, leaves: seq<Id>, keep: nat)
    requires Inv(s, root, NIL) && IsSplit(s, t, p, i, leaves, keep)
    requires !s.nodes[p].isLeaf && s.nodes[s.nodes[p].children[i]].isLeaf
    ensures Inv(t, root, NIL) && t.nodes[root].cells == s.nodes[root].cells
  {
    var d := s.nodes[p].children[i];
    assert NodeOk(s, p, root, NIL) && NodeOk(s, d, root, NIL);
    assert OwnChild(s, p, s.nodes[p], i, NIL);
    NotOwnParent(s, p, root, NIL);
    forall e | e in t.nodes ensures NodeOk(t, e, root, NIL) {
      if e in leaves {
        var j :| 0 <= j < |leaves| && leaves[j] == e;
        NewLeafOk(s, t, root, p, i, leaves, keep, j);
      } else if e == p {
        SpreadOk(s, t, root, p, i, leaves, keep);
      } else if e == d {
        TrimmedOk(s, t, root, p, i, leaves, keep);
      } else {
        assert NodeOk(s, e, root, NIL);
        BesideSplitOk(s, t, root, p, i, leaves, keep, e);
      }
    }
  }

  lemma {:induction false} BesideSplitOk(s: Snap, t: Snap, root: Id, p: Id, i: nat, leaves: seq<Id>, keep: nat, e: Id)
    requires IsSplit(s, t, p, i, leaves, keep) && root in s.nodes && root in t.nodes
    requires NodeOk(s, p, root, NIL) && !s.nodes[p].isLeaf
    requires e in s.nodes && e != p && e != s.nodes[p].children[i] && NodeOk(s, e, root, NIL)
    requires NodeOk(s, s.nodes[p].children[i], root, NIL) && s.nodes[s.nodes[p].children[i]].isLeaf
    requires t.nodes[root].rank == s.nodes[root].rank
    ensures e in t.nodes && NodeOk(t, e, root, NIL)
  {
    var d := s.nodes[p].children[i];
    assert OwnChild(s, p, s.nodes[p], i, NIL);
    if s.nodes[e].parent == p {
      SpreadContains(s, t, p, i, leaves, keep, e);
    }
    if s.nodes[e].isLeaf {
      LeafOwns(s, d);
      OtherLeafOk(s, t, e);
    } else {
      assert s.nodes[p].parent == e ==> t.nodes[p].parent == e;
      SameBranchOk(s, t, e, t.nodes[e]);
    }
  }

  lemma {:induction false} SpreadContains(s: Snap, t: Snap, p: Id, i: nat, leaves: seq<Id>, keep: nat, e: Id)
    requires IsSplit(s, t, p, i, leaves, keep)
    requires e in s.nodes[p].children
    ensures e in t.nodes[p].children
  {
    var n, m := s.nodes[p], t.nodes[p];
    var k :| 0 <= k < |n.children| && n.children[k] == e;
    assert m.children[if k <= i then k else k + |leaves|] == e;
  }

  lemma {:induction false} NewLeafOk(s: Snap, t: Snap, root: Id, p: Id, i: nat, leaves: seq<Id>, keep: nat, j: nat)
    requires IsSplit(s, t, p, i, leaves, keep) && j < |leaves| && root in s.nodes && root in t.nodes
    requires NodeOk(s, p, root, NIL) && NodeOk(s, s.nodes[p].children[i], root, NIL)
    requires !s.nodes[p].isLeaf && s.nodes[s.nodes[p].children[i]].isLeaf
    requires s.nodes[s.nodes[p].children[i]].rank < s.nodes[p].rank && t.nodes[root].rank == s.nodes[root].rank
    ensures leaves[j] in t.nodes && NodeOk(t, leaves[j], root, NIL)
  {
    var d, e := s.nodes[p].children[i], leaves[j];
    assert IsNewLeaf(s, t, p, d, e, keep, j);
    assert t.nodes[p].children[i + 1 + j] == e;
    PieceIsLeaf(s, t, p, d, e, keep, j);
  }

  lemma {:induction false} PieceIsLeaf(s: Snap, t: Snap, p: Id, d: Id, e: Id, keep: nat, j: nat)
    requires d in s.nodes && LeafOk(s, d, s.nodes[d]) && IsNewLeaf(s, t, p, d, e, keep, j)
    ensures LeafOk(t, e, t.nodes[e])
  {
    var n, m := s.nodes[d], t.nodes[e];
    var from := Start(keep, j);
    forall k | 0 <= k < |m.lines| ensures OwnLine(t, e, m.lines[k], m.cells[k]) {
      assert OwnLine(s, d, n.lines[from + k], n.cells[from + k]);
      assert m.lines[k] in Piece(n.lines, keep, j);
    }
  }

  lemma {:induction false} TrimmedOk(s: Snap, t: Snap, root: Id, p: Id, i: nat, leaves: seq<Id>, keep: nat)
    requires IsSplit(s, t, p, i, leaves, keep) && root in s.nodes && root in t.nodes
    requires NodeOk(s, s.nodes[p].children[i], root, NIL) && s.nodes[s.nodes[p].children[i]].isLeaf
    requires s.nodes[s.nodes[p].children[i]].parent == p && !s.nodes[p].isLeaf
    requires t.nodes[root].rank == s.nodes[root].rank
    ensures s.nodes[p].children[i] in t.nodes && NodeOk(t, s.nodes[p].children[i], root, NIL)
  {
    var d := s.nodes[p].children[i];
    var n, m := s.nodes[d], t.nodes[d];
    assert t.nodes[p].children[i] == d;
    forall k | 0 <= k < |m.lines| ensures OwnLine(t, d, m.lines[k], m.cells[k]) {
      assert OwnLine(s, d, n.lines[k], n.cells[k]);
      assert m.lines[k] == n.lines[k];
      NotInTail(n.lines, k, keep);
    }
  }

  lemma {:induction false} SpreadOk(s: Snap, t: Snap, root: Id, p: Id, i: nat, leaves: seq<Id>, keep: nat)
    requires IsSplit(s, t, p, i, leaves, keep) && root in s.nodes && root in t.nodes
    requires NodeOk(s, p, root, NIL) && !s.nodes[p].isLeaf
    requires t.nodes[root].rank == s.nodes[root].rank
    requires s.nodes[p].parent != NIL ==> s.nodes[p].parent != p
    ensures p in t.nodes && NodeOk(t, p, root, NIL)
  {
    var d := s.nodes[p].children[i];
    var n, m, cells := s.nodes[p], t.nodes[p], s.nodes[d].cells;
    assert OwnChild(s, p, n, i, NIL);
    var pieces := seq(|leaves|, j requires 0 <= j < |leaves| => Piece(cells, keep, j));
    forall j | 0 <= j < |leaves| ensures PieceFits(cells, keep, j) {
      assert IsNewLeaf(s, t, p, d, leaves[j], keep, j);
    }
    PiecesCover(cells, keep, pieces);
    ConcatSpread(n.kids, i, cells[..keep], pieces);
    forall k | 0 <= k < |m.children| ensures OwnChild(t, p, m, k, NIL) {
      SpreadChildOk(s, t, root, p, i, leaves, keep, k);
    }
    SpreadNoDup(s, t, p, i, leaves, keep);
  }

  lemma {:induction false} ConcatSpread<T>(kids: seq<seq<T>>, i: nat, kept: seq<T>, pieces: seq<seq<T>>)
    requires i < |kids| && kept + Concat(pieces) == kids[i]
    ensures Concat(kids[..i] + [kept] + pieces + kids[i + 1..]) == Concat(kids)
  {
    ConcatAround(kids, i);
    ConcatAppend(kids[..i] + [kept] + pieces, kids[i + 1..]);
    ConcatAppend(kids[..i] + [kept], pieces);
    ConcatAppend(kids[..i], [kept]);
    ConcatOne(kept);
    Regroup(Concat(kids[..i]), kept, Concat(pieces), Concat(kids[i + 1..]));
  }

  lemma Regroup<T>(a: seq<T>, b: seq<T>, c: seq<T>, d: seq<T>)
    ensures a + b + c + d == a + (b + c) + d
  {}

  /** Where the entries of a spread node come from. */
  lemma SpreadAt(n: Chunk, i: nat, leaves: seq<Id>, kept: seq<Cell>, pieces: seq<seq<Cell>>, k: nat)
    requires i < |n.children| == |n.kids| && |pieces| == |leaves| && k < |n.children| + |leaves|
    ensures var m := Spread(n, i, leaves, kept, pieces);
      && |m.children| == |m.kids| == |n.children| + |leaves|
      && (k == i ==> m.children[k] == n.children[i] && m.kids[k] == kept)
      && (i < k <= i + |leaves| ==> m.children[k] == leaves[k - i - 1] && m.kids[k] == pieces[k - i - 1])
      && (k < i ==> m.children[k] == n.children[k] && m.kids[k] == n.kids[k])
      && (k > i + |leaves| ==> m.children[k] == n.children[k - |leaves|] && m.kids[k] == n.kids[k - |leaves|])
  {}

  lemma {:induction false} SpreadChildOk(s: Snap, t: Snap, root: Id, p: Id, i: nat, leaves: seq<Id>, keep: nat, k: nat)
    requires IsSplit(s, t, p, i, leaves, keep) && root in s.nodes
    requires NodeOk(s, p, root, NIL) && !s.nodes[p].isLeaf
    requires k < |t.nodes[p].children| == |t.nodes[p].kids|
    ensures OwnChild(t, p, t.nodes[p], k, NIL)
  {
    var d := s.nodes[p].children[i];
    assert OwnChild(s, p, s.nodes[p], i, NIL);
    SpreadAt(s.nodes[p], i, leaves, s.nodes[d].cells[..keep],
      seq(|leaves|, j requires 0 <= j < |leaves| => Piece(s.nodes[d].cells, keep, j)), k);
    if i < k <= i + |leaves| {
      assert IsNewLeaf(s, t, p, d, leaves[k - i - 1], keep, k - i - 1);
    } else if k != i {
      OtherChildStays(s, t, root, p, i, leaves, keep, if k < i then k else k - |leaves|);
    }
  }

  lemma {:induction false} OtherChildStays(s: Snap, t: Snap, root: Id, p: Id, i: nat, leaves: seq<Id>, keep: nat, q: nat)
    requires IsSplit(s, t, p, i, leaves, keep) && root in s.nodes
    requires NodeOk(s, p, root, NIL) && !s.nodes[p].isLeaf
    requires q < |s.nodes[p].children| && q != i
    ensures var e := s.nodes[p].children[q];
      e in t.nodes && t.nodes[e].parent == p && t.nodes[e].rank < t.nodes[p].rank && s.nodes[p].kids[q] == t.nodes[e].cells
  {
    assert OwnChild(s, p, s.nodes[p], q, NIL);
  }

  lemma {:induction false} SpreadNoDup(s: Snap, t: Snap, p: Id, i: nat, leaves: seq<Id>, keep: nat)
    requires IsSplit(s, t, p, i, leaves, keep)
    requires BranchOk(s, p, s.nodes[p], NIL)
    ensures NoDup(t.nodes[p].children)
  {
    var n, d := s.nodes[p], s.nodes[p].children[i];
    forall x | x in leaves ensures x !in n.children {
      var j :| 0 <= j < |leaves| && leaves[j] == x;
      assert IsNewLeaf(s, t, p, d, x, keep, j);
      ChildrenAreNodes(s, p, NIL);
    }
    NoDupSplice(n.children, i + 1, leaves);
  }

  /** A branch of which at most the parent changed, and nothing of what it sees of its children. */
  lemma {:induction false} SameBranchOk(s: Snap, t: Snap, d: Id, m: Chunk)
    requires d in s.nodes && BranchOk(s, d, s.nodes[d], NIL) && m == s.nodes[d].(parent := m.parent)
    requires forall e :: e in s.nodes && s.nodes[e].parent == d ==>
      e in t.nodes && t.nodes[e].parent == d && t.nodes[e].rank == s.nodes[e].rank && t.nodes[e].cells == s.nodes[e].cells
    ensures BranchOk(t, d, m, NIL)
  {
    var n := s.nodes[d];
    forall i | 0 <= i < |m.children| ensures OwnChild(t, d, m, i, NIL) {
      assert OwnChild(s, d, n, i, NIL);
    }
  }

  lemma {:induction false} NotOwnGrandparent(s: Snap, c: Id, p: Id, root: Id)
    requires c in s.nodes && p in s.nodes && root in s.nodes && s.nodes[c].parent == p
    requires NodeOk(s, c, root, NIL) && NodeOk(s, p, root, NIL)
    ensures s.nodes[p].parent != c && s.nodes[p].parent != p && c != p
  {
    NotOwnParent(s, p, root, NIL);
    ChildrenAreNodes(s, p, NIL);
    if s.nodes[p].parent == c {
      ChildrenAreNodes(s, c, NIL);
      assert false;
    }
  }

  /** The lines in `moved` got c as their parent. */
  ghost predicate IsAdopted(a: map<Id, Line>, b: map<Id, Line>, moved: seq<Id>, c: Id) {
    b.Keys == a.Keys && forall l :: l in a ==> b[l] == if l in moved then a[l].(parent := c) else a[l]
  }

  /** One new leaf has taken the lines of n from `from` to `to`; d itself still lists them. */
  ghost predicate IsOneCut(u: Snap, t: Snap, n: Chunk, p: Id, d: Id, at: nat, leaf: Id, from: nat, to: nat) {
    && p in u.nodes && d in u.nodes && leaf !in u.nodes && p != d && at <= |u.nodes[p].children|
    && from <= to <= |n.lines| && to <= |n.cells|
    && var lines, cells := n.lines[from..to], n.cells[from..to];
    && t.nodes.Keys == u.nodes.Keys + {leaf}
    && t.nodes[leaf] == Chunk(true, lines, [], 0, Sum(cells), p, cells, [], 0)
    && t.nodes[d] == u.nodes[d].(height := u.nodes[d].height - Sum(cells))
    && t.nodes[p] == u.nodes[p].(children := Splice(u.nodes[p].children, at, [leaf]))
    && (forall e :: e in u.nodes && e != p && e != d ==> t.nodes[e] == u.nodes[e])
    && IsAdopted(u.lines, t.lines, lines, leaf)
  }

  /** Where the loop over the lines of d stands when it has made `leaves`. */
  ghost predicate IsCutting(s: Snap, u: Snap, p: Id, i: nat, leaves: seq<Id>, keep: nat) {
    && CutFrame(s, u, p, i, leaves, keep)
    && CutLeavesOk(s, u, p, s.nodes[p].children[i], leaves, keep)
    && CutPair(s, u, p, i, leaves, keep)
    && CutLines(s, u, s.nodes[s.nodes[p].children[i]].lines, keep, Start(keep, |leaves|))
  }

  ghost predicate CutFrame(s: Snap, u: Snap, p: Id, i: nat, leaves: seq<Id>, keep: nat) {
    && p in s.nodes && i < |s.nodes[p].children| == |s.nodes[p].kids|
    && var d := s.nodes[p].children[i];
    && d in s.nodes && d != p && |s.nodes[d].lines| == |s.nodes[d].cells| && Start(keep, |leaves|) <= |s.nodes[d].lines|
    && NoDup(leaves) && u.nodes.Keys == s.nodes.Keys + (set e | e in leaves)
    && (forall e :: e in s.nodes && e != p && e != d ==> u.nodes[e] == s.nodes[e])
  }

  ghost predicate CutLeavesOk(s: Snap, u: Snap, p: Id, d: Id, leaves: seq<Id>, keep: nat)
    requires d in s.nodes
  {
    forall j :: 0 <= j < |leaves| ==> IsNewLeaf(s, u, p, d, leaves[j], keep, j)
  }

  ghost predicate CutLines(s: Snap, u: Snap, lines: seq<Id>, from: nat, to: nat)
    requires from <= to <= |lines|
  {
    u.lines.Keys == s.lines.Keys && forall l :: l in s.lines && l !in lines[from..to] ==> u.lines[l] == s.lines[l]
  }

  ghost predicate CutPair(s: Snap, u: Snap, p: Id, i: nat, leaves: seq<Id>, keep: nat)
    requires p in s.nodes && i < |s.nodes[p].children| == |s.nodes[p].kids|
    requires s.nodes[p].children[i] in s.nodes && s.nodes.Keys <= u.nodes.Keys
    requires Start(keep, |leaves|) <= |s.nodes[s.nodes[p].children[i]].cells|
  {
    var d := s.nodes[p].children[i];
    && u.nodes[d] == s.nodes[d].(height := s.nodes[d].height - Sum(s.nodes[d].cells[keep..Start(keep, |leaves|)]))
    && u.nodes[p] == s.nodes[p].(children := s.nodes[p].children[..i + 1] + leaves + s.nodes[p].children[i + 1..])
  }

  lemma {:induction false} CutOneMore(s: Snap, u: Snap, t: Snap, p: Id, d: Id, i: nat, leaves: seq<Id>, keep: nat, leaf: Id)
    requires IsCutting(s, u, p, i, leaves, keep) && s.nodes[p].children[i] == d
    requires IsOneCut(u, t, s.nodes[d], p, d, i + 1 + |leaves|, leaf, Start(keep, |leaves|), Start(keep, |leaves| + 1))
    requires LeafOk(s, d, s.nodes[d])
    ensures IsCutting(s, t, p, i, leaves + [leaf], keep)
  {
    CutOneMoreFrame(s, u, t, p, d, i, leaves, keep, leaf);
    CutAllLeaves(s, u, t, p, d, i, leaves, keep, leaf);
    CutOneMorePair(s, u, t, p, d, i, leaves, keep, leaf);
    CutOneMoreLines(s, u, t, s.nodes[d].lines, keep, Start(keep, |leaves|), Start(keep, |leaves| + 1), leaf);
  }

  lemma {:induction false} CutOneMoreFrame(s: Snap, u: Snap, t: Snap, p: Id, d: Id, i: nat, leaves: seq<Id>, keep: nat, leaf: Id)
    requires CutFrame(s, u, p, i, leaves, keep) && s.nodes[p].children[i] == d
    requires IsOneCut(u, t, s.nodes[d], p, d, i + 1 + |leaves|, leaf, Start(keep, |leaves|), Start(keep, |leaves| + 1))
    ensures |leaves + [leaf]| == |leaves| + 1 && CutFrame(s, t, p, i, leaves + [leaf], keep)
  {
    assert forall e :: e in leaves ==> e != leaf;
    NoDupAppend(leaves, [leaf]);
  }

  lemma {:induction false} CutAllLeaves(s: Snap, u: Snap, t: Snap, p: Id, d: Id, i: nat, leaves: seq<Id>, keep: nat, leaf: Id)
    requires IsCutting(s, u, p, i, leaves, keep) && s.nodes[p].children[i] == d
    requires IsOneCut(u, t, s.nodes[d], p, d, i + 1 + |leaves|, leaf, Start(keep, |leaves|), Start(keep, |leaves| + 1))
    requires LeafOk(s, d, s.nodes[d])
    ensures CutLeavesOk(s, t, p, d, leaves + [leaf], keep)
  {
    hide IsNewLeaf, IsOneCut;
    var k := |leaves|;
    forall j | 0 <= j <= k ensures IsNewLeaf(s, t, p, d, (leaves + [leaf])[j], keep, j) {
      if j < k { CutKeepsLeaf(s, u, t, p, d, i, leaves, keep, leaf, j); }
      else { CutMakesLeaf(s, u, t, p, d, i, leaves, keep, leaf); }
    }
  }

  lemma {:induction false} CutOneMoreLines(s: Snap, u: Snap, t: Snap, lines: seq<Id>, keep: nat, from: nat, to: nat, leaf: Id)
    requires keep <= from <= to <= |lines| && CutLines(s, u, lines, keep, from)
    requires IsAdopted(u.lines, t.lines, lines[from..to], leaf)
    ensures CutLines(s, t, lines, keep, to)
  {
    SlicesJoin(lines, keep, from, to);
  }

  lemma {:induction false} CutOneMorePair(s: Snap, u: Snap, t: Snap, p: Id, d: Id, i: nat, leaves: seq<Id>, keep: nat, leaf: Id)
    requires p in s.nodes && i < |s.nodes[p].children| == |s.nodes[p].kids| && s.nodes[p].children[i] == d
    requires d in s.nodes && s.nodes.Keys <= u.nodes.Keys
    requires Start(keep, |leaves|) <= |s.nodes[d].cells| && CutPair(s, u, p, i, leaves, keep)
    requires IsOneCut(u, t, s.nodes[d], p, d, i + 1 + |leaves|, leaf, Start(keep, |leaves|), Start(keep, |leaves| + 1))
    ensures |leaves + [leaf]| == |leaves| + 1 && CutPair(s, t, p, i, leaves + [leaf], keep)
  {
    SumSlices(s.nodes[d].cells, keep, Start(keep, |leaves|), Start(keep, |leaves| + 1));
    CutChildren(s.nodes[p].children, i, leaves, leaf);
  }

  lemma SlicesJoin<T>(s: seq<T>, a: nat, b: nat, c: nat)
    requires a <= b <= c <= |s|
    ensures s[a..b] + s[b..c] == s[a..c]
  {}

  lemma {:induction false} SumSlices(cells: seq<Cell>, a: nat, b: nat, c: nat)
    requires a <= b <= c <= |cells|
    ensures Sum(cells[a..c]) == Sum(cells[a..b]) + Sum(cells[b..c])
  {
    SlicesJoin(cells, a, b, c);
    SumAppend(cells[a..b], cells[b..c]);
  }

  lemma CutChildren(children: seq<Id>, i: nat, leaves: seq<Id>, leaf: Id)
    requires i < |children|
    ensures Splice(children[..i + 1] + leaves + children[i + 1..], i + 1 + |leaves|, [leaf])
         == children[..i + 1] + (leaves + [leaf]) + children[i + 1..]
  {}

  lemma {:induction false} CutKeepsLeaf(s: Snap, u: Snap, t: Snap, p: Id, d: Id, i: nat, leaves: seq<Id>, keep: nat, leaf: Id, j: nat)
    requires IsCutting(s, u, p, i, leaves, keep) && s.nodes[p].children[i] == d && j < |leaves|
    requires IsOneCut(u, t, s.nodes[d], p, d, i + 1 + |leaves|, leaf, Start(keep, |leaves|), Start(keep, |leaves| + 1))
    requires NoDup(s.nodes[d].lines)
    ensures IsNewLeaf(s, t, p, d, leaves[j], keep, j)
  {
    assert IsNewLeaf(s, u, p, d, leaves[j], keep, j);
    assert leaves[j] in leaves;
    PiecesApart(s.nodes[d].lines, keep, j, |leaves|);
  }

  lemma {:induction false} CutMakesLeaf(s: Snap, u: Snap, t: Snap, p: Id, d: Id, i: nat, leaves: seq<Id>, keep: nat, leaf: Id)
    requires IsCutting(s, u, p, i, leaves, keep) && s.nodes[p].children[i] == d
    requires IsOneCut(u, t, s.nodes[d], p, d, i + 1 + |leaves|, leaf, Start(keep, |leaves|), Start(keep, |leaves| + 1))
    requires LeafOk(s, d, s.nodes[d])
    ensures IsNewLeaf(s, t, p, d, leaf, keep, |leaves|)
  {
    var k, n := |leaves|, s.nodes[d];
    assert PieceFits(n.lines, keep, k) && PieceFits(n.cells, keep, k);
    LaterLinesUntouched(s, u, p, i, leaves, keep);
    assert forall l :: l in Piece(n.lines, keep, k) ==> l in n.lines[Start(keep, k)..];
  }

  lemma {:induction false} PiecesApart<T>(s: seq<T>, keep: nat, j: nat, k: nat)
    requires NoDup(s) && j < k && PieceFits(s, keep, j) && PieceFits(s, keep, k)
    ensures forall x :: x in Piece(s, keep, j) ==> x !in Piece(s, keep, k)
  {
    forall x | x in Piece(s, keep, j) ensures x !in Piece(s, keep, k) {
      var a :| 0 <= a < 25 && Piece(s, keep, j)[a] == x;
      forall b | 0 <= b < 25 ensures Piece(s, keep, k)[b] != x {
        assert s[Start(keep, j) + a] != s[keep + 25 * k + b];
      }
    }
  }

  /** The lines that come next are still as they were. */
  lemma {:induction false} LaterLinesUntouched(s: Snap, u: Snap, p: Id, i: nat, leaves: seq<Id>, keep: nat)
    requires IsCutting(s, u, p, i, leaves, keep)
    requires Start(keep, |leaves|) + 25 <= |s.nodes[s.nodes[p].children[i]].lines|
    requires LeafOk(s, s.nodes[p].children[i], s.nodes[s.nodes[p].children[i]])
    ensures forall l :: l in s.nodes[s.nodes[p].children[i]].lines[Start(keep, |leaves|)..] ==> l in s.lines && u.lines[l] == s.lines[l]
  {
    var d := s.nodes[p].children[i];
    var n, pos := s.nodes[d], Start(keep, |leaves|);
    LeafOwns(s, d);
    forall l | l in n.lines[pos..] ensures l in s.lines && u.lines[l] == s.lines[l] {
      var b :| pos <= b < |n.lines| && n.lines[b] == l;
      assert l in n.lines;
      forall a | 0 <= a < pos - keep ensures n.lines[keep..pos][a] != l {
        assert n.lines[keep + a] != n.lines[b];
      }
    }
  }

  /** At the end of the loop d drops the lines it gave away. */
  lemma {:induction false} CuttingDone(s: Snap, u: Snap, p: Id, i: nat, leaves: seq<Id>, keep: nat)
    requires IsCutting(s, u, p, i, leaves, keep)
    requires |s.nodes[s.nodes[p].children[i]].lines| == Start(keep, |leaves|)
    requires s.nodes[s.nodes[p].children[i]].height == Sum(s.nodes[s.nodes[p].children[i]].cells)
    ensures var d := s.nodes[p].children[i];
      var n := s.nodes[d];
      u.nodes[d].(lines := n.lines[..keep], cells := n.cells[..keep]) == Trimmed(n, keep)
  {
    var d := s.nodes[p].children[i];
    var n := s.nodes[d];
    assert n.cells == n.cells[..keep] + n.cells[keep..];
    assert n.cells[keep..Start(keep, |leaves|)] == n.cells[keep..];
    SumAppend(n.cells[..keep], n.cells[keep..]);
  }

  lemma {:induction false} CuttingStarts(s: Snap, p: Id, i: nat, keep: nat)
    requires p in s.nodes && i < |s.nodes[p].children| == |s.nodes[p].kids|
    requires var d := s.nodes[p].children[i];
      d in s.nodes && d != p && |s.nodes[d].lines| == |s.nodes[d].cells| && keep <= |s.nodes[d].lines|
    ensures IsCutting(s, s, p, i, [], keep)
  {
    var c := s.nodes[p].children;
    assert c[..i + 1] + [] + c[i + 1..] == c;
  }

  lemma CuttingShape(s: Snap, u: Snap, p: Id, d: Id, i: nat, leaves: seq<Id>, keep: nat)
    requires IsCutting(s, u, p, i, leaves, keep) && s.nodes[p].children[i] == d
    ensures d in s.nodes && p in u.nodes && d in u.nodes && p != d && u.nodes[d].lines == s.nodes[d].lines && |s.nodes[d].lines| == |s.nodes[d].cells|
    ensures i < |s.nodes[p].children| && |u.nodes[p].children| == |s.nodes[p].children| + |leaves|
  {}

  /** The heights of the lines still to be cut are those that the cells count. */
  lemma {:induction false} CellHeights(s: Snap, u: Snap, d: Id, p: Id, i: nat, leaves: seq<Id>, keep: nat)
    requires IsCutting(s, u, p, i, leaves, keep) && s.nodes[p].children[i] == d && LeafOk(s, d, s.nodes[d])
    ensures forall k :: Start(keep, |leaves|) <= k < |s.nodes[d].lines| ==>
      s.nodes[d].lines[k] in u.lines && s.nodes[d].cells[k].height == u.lines[s.nodes[d].lines[k]].height
  {
    var n, pos := s.nodes[d], Start(keep, |leaves|);
    forall k | pos <= k < |n.lines| ensures n.lines[k] in u.lines && n.cells[k].height == u.lines[n.lines[k]].height {
      assert OwnLine(s, d, n.lines[k], n.cells[k]);
      forall a | 0 <= a < pos - keep ensures n.lines[keep..pos][a] != n.lines[k] {
        assert n.lines[keep + a] != n.lines[k];
      }
    }
  }

  lemma RoomForPiece(keep: nat, k: nat, m: nat)
    requires Start(keep, k) < Start(keep, m)
    ensures Start(keep, k) + 25 <= Start(keep, m) && k < m
  {}

  lemma {:induction false} CutsFit(s: Snap, u: Snap, p: Id, d: Id, i: nat, leaves: seq<Id>, keep: nat)
    requires IsCutting(s, u, p, i, leaves, keep) && s.nodes[p].children[i] == d
    ensures forall j :: 0 <= j < |leaves| ==> PieceFits(s.nodes[d].cells, keep, j)
  {
    forall j | 0 <= j < |leaves| ensures PieceFits(s.nodes[d].cells, keep, j) {
      assert IsNewLeaf(s, u, p, d, leaves[j], keep, j);
    }
  }

  lemma {:induction false} CutIsSplit(s: Snap, u: Snap, t: Snap, p: Id, d: Id, i: nat, leaves: seq<Id>, keep: nat)
    requires IsCutting(s, u, p, i, leaves, keep) && s.nodes[p].children[i] == d
    requires |s.nodes[d].lines| == Start(keep, |leaves|)
    requires t.lines == u.lines && t.nodes.Keys == u.nodes.Keys
    requires forall e :: e in u.nodes && e != p && e != d ==> t.nodes[e] == u.nodes[e]
    requires t.nodes[d] == Trimmed(s.nodes[d], keep)
    requires forall j :: 0 <= j < |leaves| ==> PieceFits(s.nodes[d].cells, keep, j)
    requires t.nodes[p] == Spread(s.nodes[p], i, leaves, s.nodes[d].cells[..keep],
      seq(|leaves|, j requires 0 <= j < |leaves| => Piece(s.nodes[d].cells, keep, j)))
    ensures IsSplit(s, t, p, i, leaves, keep)
  {
    assert s.nodes[d].lines[keep..Start(keep, |leaves|)] == s.nodes[d].lines[keep..];
    forall j | 0 <= j < |leaves| ensures IsNewLeaf(s, t, p, d, leaves[j], keep, j) {
      assert IsNewLeaf(s, u, p, d, leaves[j], keep, j);
      assert leaves[j] in leaves;
    }
  }

  // ------------------------------------------------------------------ spilling an overfull branch

  /** A branch over children a..b of n. */
  ghost function Half(n: Chunk, a: nat, b: nat, parent: Ref): Chunk
    requires a <= b <= |n.children| == |n.kids|
  {
    var cells := Concat(n.kids[a..b]);
    Chunk(false, [], n.children[a..b], |cells|, Sum(cells), parent, cells, n.kids[a..b], n.rank)
  }

  lemma {:induction false} HalfOk(s: Snap, t: Snap, me: Id, h: Id, a: nat, b: nat, parent: Ref)
    requires me in s.nodes && BranchOk(s, me, s.nodes[me], NIL) && a < b <= |s.nodes[me].children|
    requires h in t.nodes && t.nodes[h] == Half(s.nodes[me], a, b, parent)
    requires forall e :: e in s.nodes[me].children[a..b] ==>
      e in s.nodes && e in t.nodes && t.nodes[e] == s.nodes[e].(parent := h)
    ensures BranchOk(t, h, t.nodes[h], NIL)
  {
    var n, m := s.nodes[me], t.nodes[h];
    forall i | 0 <= i < |m.children| ensures OwnChild(t, h, m, i, NIL) {
      assert OwnChild(s, me, n, a + i, NIL);
      assert m.children[i] == n.children[a + i] && m.kids[i] == n.kids[a + i];
      assert m.children[i] in n.children[a..b];
    }
  }

  /** The children and kid entries of p when child q has spilled the second of two halves. */
  ghost function WithSibling(n: Chunk, q: nat, sib: Id, first: seq<Cell>, second: seq<Cell>): Chunk
    requires q < |n.children| == |n.kids|
  {
    n.(children := Splice(n.children, q + 1, [sib]), kids := n.kids[..q] + [first, second] + n.kids[q + 1..])
  }

  ghost predicate IsSpill(s: Snap, t: Snap, me: Id, p: Id, q: nat, sib: Id) {
    && me in s.nodes && p in s.nodes && me != p && s.nodes[me].parent == p
    && 5 < |s.nodes[me].children| == |s.nodes[me].kids|
    && q < |s.nodes[p].children| == |s.nodes[p].kids| && s.nodes[p].children[q] == me
    && var n, cut := s.nodes[me], |s.nodes[me].children| - 5;
    && sib !in s.nodes && t.nodes.Keys == s.nodes.Keys + {sib} && t.lines == s.lines
    && t.nodes[sib] == Half(n, cut, |n.children|, p)
    && t.nodes[me] == Half(n, 0, cut, p)
    && t.nodes[p] == WithSibling(s.nodes[p], q, sib, Concat(n.kids[0..cut]), Concat(n.kids[cut..]))
    && forall e :: e in s.nodes && e != me && e != p ==>
         t.nodes[e] == if e in n.children[cut..] then s.nodes[e].(parent := sib) else s.nodes[e]
  }

  lemma {:induction false} SpillKeeps(s: Snap, t: Snap, root: Id, me: Id, p: Id, q: nat, sib: Id)
    requires Inv(s, root, NIL) && IsSpill(s, t, me, p, q, sib) && !s.nodes[me].isLeaf
    ensures Inv(t, root, NIL) && t.nodes[root].cells == s.nodes[root].cells && t.nodes[root].rank == s.nodes[root].rank
  {
    assert NodeOk(s, me, root, NIL) && NodeOk(s, p, root, NIL) && NodeOk(s, root, root, NIL);
    NotOwnGrandparent(s, me, p, root);
    SpilledRoot(s, t, root, me, p, q, sib);
    forall e | e in t.nodes ensures NodeOk(t, e, root, NIL) {
      if e == me {
        FirstHalfOk(s, t, root, me, p, q, sib);
      } else if e == sib {
        SecondHalfOk(s, t, root, me, p, q, sib);
      } else if e == p {
        SpilledParentOk(s, t, root, me, p, q, sib);
      } else {
        assert NodeOk(s, e, root, NIL);
        BesideSpillOk(s, t, root, me, p, q, sib, e);
      }
    }
  }

  lemma {:induction false} SpilledRoot(s: Snap, t: Snap, root: Id, me: Id, p: Id, q: nat, sib: Id)
    requires IsSpill(s, t, me, p, q, sib) && root in s.nodes && NodeOk(s, root, root, NIL)
    requires NodeOk(s, me, root, NIL) && !s.nodes[me].isLeaf
    ensures root in t.nodes && !t.nodes[root].isLeaf == !s.nodes[root].isLeaf
    ensures t.nodes[root].cells == s.nodes[root].cells && t.nodes[root].rank == s.nodes[root].rank
  {
    assert root != me;
    ChildrenAreNodes(s, me, NIL);
    assert forall e :: e in s.nodes[me].children[|s.nodes[me].children| - 5..] ==> e in s.nodes[me].children;
  }

  lemma {:induction false} FirstHalfOk(s: Snap, t: Snap, root: Id, me: Id, p: Id, q: nat, sib: Id)
    requires IsSpill(s, t, me, p, q, sib) && !s.nodes[me].isLeaf && !s.nodes[p].isLeaf
    requires root in s.nodes && root in t.nodes && NodeOk(s, me, root, NIL)
    requires t.nodes[root].rank == s.nodes[root].rank && me != root && s.nodes[p].parent != me
    ensures NodeOk(t, me, root, NIL)
  {
    var n, cut := s.nodes[me], |s.nodes[me].children| - 5;
    ChildrenAreNodes(s, me, NIL);
    SlicesApart(n.children, cut);
    assert forall e :: e in n.children[0..cut] ==> e in n.children && e != p;
    HalfOk(s, t, me, me, 0, cut, p);
    assert t.nodes[p].children[q] == me;
  }

  lemma {:induction false} SecondHalfOk(s: Snap, t: Snap, root: Id, me: Id, p: Id, q: nat, sib: Id)
    requires IsSpill(s, t, me, p, q, sib) && !s.nodes[me].isLeaf && !s.nodes[p].isLeaf
    requires root in s.nodes && root in t.nodes && NodeOk(s, me, root, NIL)
    requires t.nodes[root].rank == s.nodes[root].rank && me != root && sib != root && s.nodes[p].parent != me
    ensures NodeOk(t, sib, root, NIL)
  {
    hide Concat, Sum;
    var n, cut := s.nodes[me], |s.nodes[me].children| - 5;
    ChildrenAreNodes(s, me, NIL);
    assert n.children[cut..|n.children|] == n.children[cut..];
    assert forall e :: e in n.children[cut..] ==> e in n.children && e != p;
    HalfOk(s, t, me, sib, cut, |n.children|, p);
    assert t.nodes[p].children[q + 1] == sib;
  }

  lemma {:induction false} SlicesApart<T>(s: seq<T>, cut: nat)
    requires NoDup(s) && cut <= |s|
    ensures forall x :: x in s[0..cut] ==> x !in s[cut..]
  {
    forall x | x in s[0..cut] ensures x !in s[cut..] {
      var i :| 0 <= i < cut && s[i] == x;
      NotInTail(s, i, cut);
    }
  }

  lemma {:induction false} SpilledParentOk(s: Snap, t: Snap, root: Id, me: Id, p: Id, q: nat, sib: Id)
    requires IsSpill(s, t, me, p, q, sib) && !s.nodes[me].isLeaf && !s.nodes[p].isLeaf
    requires root in s.nodes && root in t.nodes && NodeOk(s, me, root, NIL) && NodeOk(s, p, root, NIL)
    requires t.nodes[root].rank == s.nodes[root].rank && s.nodes[p].parent != p && s.nodes[p].parent != me
    ensures NodeOk(t, p, root, NIL)
  {
    SpilledCells(s, t, me, p, q, sib);
    forall k | 0 <= k < |t.nodes[p].children| ensures OwnChild(t, p, t.nodes[p], k, NIL) {
      SpilledChildOk(s, t, me, p, q, sib, k);
    }
    ChildrenAreNodes(s, p, NIL);
    NoDupSplice(s.nodes[p].children, q + 1, [sib]);
    ParentStays(s, t, root, me, p, q, sib);
  }

  lemma {:induction false} SpilledCells(s: Snap, t: Snap, me: Id, p: Id, q: nat, sib: Id)
    requires IsSpill(s, t, me, p, q, sib)
    requires BranchOk(s, me, s.nodes[me], NIL) && BranchOk(s, p, s.nodes[p], NIL)
    ensures Concat(t.nodes[p].kids) == s.nodes[p].cells
  {
    var n, np, m, cut := s.nodes[me], s.nodes[p], t.nodes[p], |s.nodes[me].children| - 5;
    var first, second := Concat(n.kids[0..cut]), Concat(n.kids[cut..]);
    assert OwnChild(s, p, np, q, NIL);
    assert n.kids == n.kids[0..cut] + n.kids[cut..];
    ConcatAppend(n.kids[0..cut], n.kids[cut..]);
    ConcatOne(second);
    ConcatSpread(np.kids, q, first, [second]);
    assert np.kids[..q] + [first] + [second] + np.kids[q + 1..] == m.kids;
  }

  lemma ParentStays(s: Snap, t: Snap, root: Id, me: Id, p: Id, q: nat, sib: Id)
    requires IsSpill(s, t, me, p, q, sib) && root in s.nodes && root in t.nodes
    requires ParentOk(s, p, s.nodes[p], root) && s.nodes[p].parent != p && s.nodes[p].parent != me
    requires t.nodes[root].rank == s.nodes[root].rank
    ensures ParentOk(t, p, t.nodes[p], root)
  {}

  lemma {:induction false} SpilledChildOk(s: Snap, t: Snap, me: Id, p: Id, q: nat, sib: Id, k: nat)
    requires IsSpill(s, t, me, p, q, sib) && BranchOk(s, p, s.nodes[p], NIL) && BranchOk(s, me, s.nodes[me], NIL)
    requires k < |t.nodes[p].children| == |t.nodes[p].kids|
    ensures OwnChild(t, p, t.nodes[p], k, NIL)
  {
    var n, np, m, cut := s.nodes[me], s.nodes[p], t.nodes[p], |s.nodes[me].children| - 5;
    assert OwnChild(s, p, np, q, NIL);
    assert n.children[cut..|n.children|] == n.children[cut..] && n.kids[cut..|n.kids|] == n.kids[cut..];
    if k < q {
      assert OwnChild(s, p, np, k, NIL);
      assert m.children[k] == np.children[k] && m.kids[k] == np.kids[k];
      NotSpilled(s, me, p, np.children[k]);
    } else if k > q + 1 {
      assert OwnChild(s, p, np, k - 1, NIL);
      assert m.children[k] == np.children[k - 1] && m.kids[k] == np.kids[k - 1];
      NotSpilled(s, me, p, np.children[k - 1]);
    }
  }

  /** A child of p is neither p nor one of the nodes that me hands over. */
  lemma {:induction false} NotSpilled(s: Snap, me: Id, p: Id, e: Id)
    requires me in s.nodes && p in s.nodes && me != p && BranchOk(s, me, s.nodes[me], NIL)
    requires e in s.nodes && s.nodes[e].parent == p && s.nodes[e].rank < s.nodes[p].rank
    requires |s.nodes[me].children| > 5
    ensures e != p && e !in s.nodes[me].children[|s.nodes[me].children| - 5..]
  {
    ChildrenAreNodes(s, me, NIL);
  }

  lemma {:induction false} BesideSpillOk(s: Snap, t: Snap, root: Id, me: Id, p: Id, q: nat, sib: Id, e: Id)
    requires IsSpill(s, t, me, p, q, sib) && !s.nodes[me].isLeaf && !s.nodes[p].isLeaf
    requires root in s.nodes && root in t.nodes && NodeOk(s, me, root, NIL) && NodeOk(s, p, root, NIL)
    requires e in s.nodes && e != me && e != p && NodeOk(s, e, root, NIL)
    requires t.nodes[root].rank == s.nodes[root].rank
    ensures NodeOk(t, e, root, NIL)
  {
    var n, cut := s.nodes[me], |s.nodes[me].children| - 5;
    assert n.children[cut..|n.children|] == n.children[cut..];
    BesideSpillParent(s, t, root, me, p, q, sib, e);
    if s.nodes[e].isLeaf {
      OtherLeafOk(s, t, e);
    } else {
      ChildrenAreNodes(s, me, NIL);
      SameBranchOk(s, t, e, t.nodes[e]);
    }
  }

  lemma {:induction false} BesideSpillParent(s: Snap, t: Snap, root: Id, me: Id, p: Id, q: nat, sib: Id, e: Id)
    requires IsSpill(s, t, me, p, q, sib) && !s.nodes[me].isLeaf && !s.nodes[p].isLeaf
    requires root in s.nodes && root in t.nodes
    requires e in s.nodes && e != me && e != p && ParentOk(s, e, s.nodes[e], root)
    requires BranchOk(s, me, s.nodes[me], NIL)
    requires t.nodes[root].rank == s.nodes[root].rank
    ensures ParentOk(t, e, t.nodes[e], root)
  {
    var n, cut := s.nodes[me], |s.nodes[me].children| - 5;
    ChildrenAreNodes(s, me, NIL);
    assert n.children[cut..|n.children|] == n.children[cut..];
    if e in n.children[cut..] {
      assert e in n.children;
    } else if s.nodes[e].parent == me {
      assert n.children == n.children[0..cut] + n.children[cut..];
    } else if s.nodes[e].parent == p {
      assert s.nodes[p].children == s.nodes[p].children[..q + 1] + s.nodes[p].children[q + 1..];
    }
  }

  // ------------------------------------------------------------------ splitting the root

  /** The root has become the parent of two new branches that share its former children. */
  ghost predicate IsRootSplit(s: Snap, t: Snap, root: Id, copy: Id, sib: Id) {
    && root in s.nodes && 5 < |s.nodes[root].children| == |s.nodes[root].kids|
    && copy !in s.nodes && sib !in s.nodes && copy != sib
    && t.nodes.Keys == s.nodes.Keys + {copy, sib} && t.lines == s.lines
    && var n, cut := s.nodes[root], |s.nodes[root].children| - 5;
    && t.nodes[copy] == Half(n, 0, cut, root)
    && t.nodes[sib] == Half(n, cut, |n.children|, root)
    && t.nodes[root] == n.(children := [copy, sib], kids := [Concat(n.kids[0..cut]), Concat(n.kids[cut..])], rank := n.rank + 1)
    && forall e :: e in s.nodes && e != root ==>
         t.nodes[e] == if e in n.children[0..cut] then s.nodes[e].(parent := copy)
                       else if e in n.children[cut..] then s.nodes[e].(parent := sib) else s.nodes[e]
  }

  lemma {:induction false} RootSplitKeeps(s: Snap, t: Snap, root: Id, copy: Id, sib: Id)
    requires Inv(s, root, NIL) && IsRootSplit(s, t, root, copy, sib)
    ensures Inv(t, root, NIL) && t.nodes[root].cells == s.nodes[root].cells
  {
    assert NodeOk(s, root, root, NIL);
    RootHalvesOk(s, t, root, copy, sib);
    RaisedRootOk(s, t, root, copy, sib);
    forall e | e in t.nodes ensures NodeOk(t, e, root, NIL) {
      if e != root && e != copy && e != sib {
        assert NodeOk(s, e, root, NIL);
        BesideRootSplitOk(s, t, root, copy, sib, e);
      }
    }
  }

  lemma {:induction false} RaisedRootOk(s: Snap, t: Snap, root: Id, copy: Id, sib: Id)
    requires IsRootSplit(s, t, root, copy, sib) && NodeOk(s, root, root, NIL) && !s.nodes[root].isLeaf
    ensures NodeOk(t, root, root, NIL)
  {
    hide Sum;
    var n, m, cut := s.nodes[root], t.nodes[root], |s.nodes[root].children| - 5;
    assert n.children[cut..|n.children|] == n.children[cut..] && n.kids[cut..|n.kids|] == n.kids[cut..];
    assert n.kids == n.kids[0..cut] + n.kids[cut..];
    ConcatAppend(n.kids[0..cut], n.kids[cut..]);
    ConcatTwo(Concat(n.kids[0..cut]), Concat(n.kids[cut..]));
    assert OwnChild(t, root, m, 0, NIL) && OwnChild(t, root, m, 1, NIL);
  }

  lemma {:induction false} ConcatTwo<T>(a: seq<T>, b: seq<T>)
    ensures Concat([a, b]) == a + b
  {
    assert [a, b][1..] == [b];
    ConcatOne(b);
  }

  lemma {:induction false} RootHalvesOk(s: Snap, t: Snap, root: Id, copy: Id, sib: Id)
    requires IsRootSplit(s, t, root, copy, sib) && NodeOk(s, root, root, NIL) && !s.nodes[root].isLeaf
    ensures NodeOk(t, copy, root, NIL) && NodeOk(t, sib, root, NIL)
  {
    var n, cut := s.nodes[root], |s.nodes[root].children| - 5;
    ChildrenAreNodes(s, root, NIL);
    assert n.children[cut..|n.children|] == n.children[cut..];
    SlicesApart(n.children, cut);
    assert forall e :: e in n.children[0..cut] ==> e in n.children && e != root;
    HalfOk(s, t, root, copy, 0, cut, root);
    assert forall e :: e in n.children[cut..] ==> e in n.children && e != root;
    HalfOk(s, t, root, sib, cut, |n.children|, root);
    assert t.nodes[root].children[0] == copy && t.nodes[root].children[1] == sib;
  }

  lemma {:induction false} BesideRootSplitOk(s: Snap, t: Snap, root: Id, copy: Id, sib: Id, e: Id)
    requires IsRootSplit(s, t, root, copy, sib) && NodeOk(s, root, root, NIL) && !s.nodes[root].isLeaf
    requires e in s.nodes && e != root && NodeOk(s, e, root, NIL)
    ensures NodeOk(t, e, root, NIL)
  {
    hide Concat, Sum;
    BesideRootSplitParent(s, t, root, copy, sib, e);
    if s.nodes[e].isLeaf {
      OtherLeafOk(s, t, e);
    } else {
      ChildrenAreNodes(s, root, NIL);
      SameBranchOk(s, t, e, t.nodes[e]);
    }
  }

  lemma {:induction false} BesideRootSplitParent(s: Snap, t: Snap, root: Id, copy: Id, sib: Id, e: Id)
    requires IsRootSplit(s, t, root, copy, sib) && BranchOk(s, root, s.nodes[root], NIL)
    requires e in s.nodes && e != root && ParentOk(s, e, s.nodes[e], root)
    ensures ParentOk(t, e, t.nodes[e], root)
  {
    var n, cut := s.nodes[root], |s.nodes[root].children| - 5;
    ChildrenAreNodes(s, root, NIL);
    assert n.children[cut..|n.children|] == n.children[cut..];
    assert n.children == n.children[0..cut] + n.children[cut..];
  }

  // ------------------------------------------------------------------ sizes of nodes

  /** The document has nothing but this leaf; it alone may be without lines. */
  ghost predicate OnlyLeaf(s: Snap, c: Id, root: Id)
    requires c in s.nodes
  {
    s.nodes[c].isLeaf && root in s.nodes && s.nodes[root].children == [c]
  }

  /** At most 50 lines in a leaf and 10 children of a branch; a and b may be larger. */
  ghost predicate SizeOk(s: Snap, c: Id, root: Id, a: Ref, b: Ref)
    requires c in s.nodes
  {
    var n := s.nodes[c];
    && (c == root || n.cells != [] || OnlyLeaf(s, c, root))
    && (c == a || c == b || if n.isLeaf then |n.lines| <= 50 else |n.children| <= 10)
  }

  ghost predicate Bounds(s: Snap, root: Id, a: Ref, b: Ref) {
    forall c {:trigger SizeOk(s, c, root, a, b)} :: c in s.nodes ==> SizeOk(s, c, root, a, b)
  }

  lemma {:induction false} ConcatNotEmpty<T>(parts: seq<seq<T>>, a: nat, b: nat)
    requires a < b <= |parts| && parts[a] != []
    ensures Concat(parts[a..b]) != []
  {
    assert parts[a..b][0] == parts[a];
  }

  lemma {:induction false} FirstKidNotEmpty(s: Snap, root: Id, c: Id, i: nat, a: Ref, b: Ref)
    requires Inv(s, root, NIL) && Bounds(s, root, a, b) && c in s.nodes && !s.nodes[c].isLeaf
    requires i < |s.nodes[c].children| && |s.nodes[c].children| > 1
    ensures i < |s.nodes[c].kids| && s.nodes[c].kids[i] != []
  {
    assert NodeOk(s, c, root, NIL) && OwnChild(s, c, s.nodes[c], i, NIL);
    var d := s.nodes[c].children[i];
    assert NodeOk(s, d, root, NIL) && SizeOk(s, d, root, a, b) && NodeOk(s, root, root, NIL);
    OnlyLeafHangsOff(s, root, d);
  }

  lemma {:induction false} OnlyLeafHangsOff(s: Snap, root: Id, d: Id)
    requires root in s.nodes && NodeOk(s, root, root, NIL) && !s.nodes[root].isLeaf && d in s.nodes
    ensures OnlyLeaf(s, d, root) ==> s.nodes[d].parent == root
  {
    if OnlyLeaf(s, d, root) {
      assert OwnChild(s, root, s.nodes[root], 0, NIL);
    }
  }

  lemma {:induction false} SpillBounds(s: Snap, t: Snap, root: Id, me: Id, p: Id, q: nat, sib: Id)
    requires Inv(s, root, NIL) && Bounds(s, root, me, p) && IsSpill(s, t, me, p, q, sib) && !s.nodes[me].isLeaf
    ensures Bounds(t, root, me, p)
  {
    var n, cut := s.nodes[me], |s.nodes[me].children| - 5;
    FirstKidNotEmpty(s, root, me, 0, me, p);
    FirstKidNotEmpty(s, root, me, cut, me, p);
    ConcatNotEmpty(n.kids, 0, cut);
    ConcatNotEmpty(n.kids, cut, |n.kids|);
    forall e | e in t.nodes ensures SizeOk(t, e, root, me, p) {
      if e != sib { assert SizeOk(s, e, root, me, p); }
    }
  }

  lemma {:induction false} RootSplitBounds(s: Snap, t: Snap, root: Id, copy: Id, sib: Id)
    requires Inv(s, root, NIL) && Bounds(s, root, root, NIL) && IsRootSplit(s, t, root, copy, sib)
    ensures Bounds(t, root, copy, root)
  {
    var n, cut := s.nodes[root], |s.nodes[root].children| - 5;
    FirstKidNotEmpty(s, root, root, 0, root, NIL);
    FirstKidNotEmpty(s, root, root, cut, root, NIL);
    ConcatNotEmpty(n.kids, 0, cut);
    ConcatNotEmpty(n.kids, cut, |n.kids|);
    forall e | e in t.nodes ensures SizeOk(t, e, root, copy, root) {
      if e in s.nodes { assert SizeOk(s, e, root, root, NIL); }
    }
  }

  lemma {:induction false} SplitBounds(s: Snap, t: Snap, root: Id, p: Id, i: nat, leaves: seq<Id>, keep: nat)
    requires IsSplit(s, t, p, i, leaves, keep) && 0 < keep <= 50 && s.nodes[s.nodes[p].children[i]].isLeaf
    requires Bounds(s, root, s.nodes[p].children[i], NIL)
    ensures Bounds(t, root, p, NIL)
  {
    var d := s.nodes[p].children[i];
    forall e | e in t.nodes ensures SizeOk(t, e, root, p, NIL) {
      if e in s.nodes {
        assert SizeOk(s, e, root, d, NIL);
      } else {
        var j :| 0 <= j < |leaves| && leaves[j] == e;
        assert IsNewLeaf(s, t, p, d, e, keep, j);
      }
    }
  }

  // ------------------------------------------------------------------ objects

  /** Size and height of node c are those of the cells `k`. */
  ghost predicate Counted(s: Snap, c: Id, k: seq<Cell>) {
    && c in s.nodes
    && (if s.nodes[c].isLeaf then |s.nodes[c].lines| else s.nodes[c].size) == |k|
    && s.nodes[c].height == Sum(k)
  }

  lemma {:induction false} ChildrenCounted(s: Snap, root: Id, x: Ref, c: Id)
    requires Inv(s, root, x) && (x == NIL || x == c) && c in s.nodes && !s.nodes[c].isLeaf
    ensures var n := s.nodes[c];
      |n.kids| == |n.children| && forall i :: 0 <= i < |n.children| ==> Counted(s, n.children[i], n.kids[i])
  {
    var n := s.nodes[c];
    assert NodeOk(s, c, root, x);
    ChildrenAreNodes(s, c, x);
    forall i | 0 <= i < |n.children| ensures Counted(s, n.children[i], n.kids[i]) {
      assert OwnChild(s, c, n, i, x);
      assert NodeOk(s, n.children[i], root, x);
    }
  }

  lemma {:induction false} HalvesAddUp(n: Chunk)
    requires |n.kids| > 5 && n.cells == Concat(n.kids) && n.size == |n.cells| && n.height == Sum(n.cells)
    ensures var cut := |n.kids| - 5;
      |Concat(n.kids[0..cut])| == n.size - |Concat(n.kids[cut..])| &&
      Sum(Concat(n.kids[0..cut])) == n.height - Sum(Concat(n.kids[cut..]))
  {
    var cut := |n.kids| - 5;
    assert n.kids == n.kids[0..cut] + n.kids[cut..];
    ConcatAppend(n.kids[0..cut], n.kids[cut..]);
    SumAppend(Concat(n.kids[0..cut]), Concat(n.kids[cut..]));
  }

  lemma {:induction false} SpillFacts(s: Snap, root: Id, me: Id)
    requires Inv(s, root, NIL) && me in s.nodes && !s.nodes[me].isLeaf && me != root
    ensures var n, p := s.nodes[me], s.nodes[me].parent;
      && p in s.nodes && p != me && me in s.nodes[p].children && |s.nodes[p].kids| == |s.nodes[p].children|
      && BranchOk(s, me, n, NIL) && n.height == Sum(n.cells) && p !in n.children && me !in n.children
    ensures forall d :: d in s.nodes[me].children ==> d in s.nodes
  {
    assert NodeOk(s, me, root, NIL);
    var p := s.nodes[me].parent;
    assert NodeOk(s, p, root, NIL);
    NotOwnGrandparent(s, me, p, root);
    ChildrenAreNodes(s, me, NIL);
  }

  /** v: the sibling has been made; t: it has been attached. */
  lemma {:induction false} SpillDone(s: Snap, v: Snap, t: Snap, me: Id, p: Id, q: nat, sib: Id)
    requires me in s.nodes && p in s.nodes && me != p && s.nodes[me].parent == p && sib !in s.nodes
    requires BranchOk(s, me, s.nodes[me], NIL) && !s.nodes[me].isLeaf && s.nodes[me].height == Sum(s.nodes[me].cells)
    requires 5 < |s.nodes[me].children| && p !in s.nodes[me].children
    requires q < |s.nodes[p].children| == |s.nodes[p].kids| && s.nodes[p].children[q] == me
    requires v.lines == s.lines && t.lines == s.lines
    requires v.nodes.Keys == s.nodes.Keys + {sib} && t.nodes.Keys == v.nodes.Keys
    requires var n, cut := s.nodes[me], |s.nodes[me].children| - 5;
      var second := Concat(n.kids[cut..]);
      v.nodes[sib] == Chunk(false, [], n.children[cut..], |second|, Sum(second), NIL, second, n.kids[cut..], n.rank) &&
      (forall e :: e in s.nodes ==> v.nodes[e] == if e in n.children[cut..] then s.nodes[e].(parent := sib) else s.nodes[e]) &&
      (forall e :: e in s.nodes && e != me && e != p ==> t.nodes[e] == v.nodes[e]) &&
      t.nodes[me] == n.(children := n.children[..cut], size := n.size - v.nodes[sib].size,
        height := n.height - v.nodes[sib].height, cells := Concat(n.kids[0..cut]), kids := n.kids[0..cut]) &&
      t.nodes[p] == WithSibling(s.nodes[p], q, sib, Concat(n.kids[0..cut]), second) &&
      t.nodes[sib] == v.nodes[sib].(parent := p)
    ensures IsSpill(s, t, me, p, q, sib)
  {
    var n, cut := s.nodes[me], |s.nodes[me].children| - 5;
    WholeTail(n.children, cut);
    WholeTail(n.kids, cut);
    HalvesAddUp(n);
  }

  lemma {:induction false} SpillCounts(s: Snap, t: Snap, root: Id, me: Id, p: Id, q: nat, sib: Id)
    requires Inv(s, root, NIL) && IsSpill(s, t, me, p, q, sib) && !s.nodes[me].isLeaf
    ensures !s.nodes[p].isLeaf && s.nodes[p].rank > s.nodes[me].rank && t.nodes[p].rank == s.nodes[p].rank
    ensures !t.nodes[me].isLeaf && !t.nodes[p].isLeaf && t.nodes[me].parent == p
    ensures |t.nodes[me].children| == |s.nodes[me].children| - 5
    ensures |t.nodes[p].children| == |s.nodes[p].children| + 1
  {
    assert NodeOk(s, me, root, NIL) && NodeOk(s, p, root, NIL);
    ChildrenAreNodes(s, p, NIL);
  }

  /** Children that were not handed over, or whose parent alone changed, count as before. */
  lemma {:induction false} StillCounted(s: Snap, v: Snap, children: seq<Id>, kids: seq<seq<Cell>>)
    requires |kids| == |children| && forall i :: 0 <= i < |children| ==> Counted(s, children[i], kids[i])
    requires forall e :: e in s.nodes ==> e in v.nodes && v.nodes[e] == s.nodes[e].(parent := v.nodes[e].parent)
    ensures forall i :: 0 <= i < |children| ==> Counted(v, children[i], kids[i])
  {
    forall i | 0 <= i < |children| ensures Counted(v, children[i], kids[i]) {
      assert Counted(s, children[i], kids[i]);
    }
  }

  /** v: the last five children of the root have gone to sib; w: the others to copy. */
  ghost predicate IsHalved(s: Snap, v: Snap, w: Snap, root: Id, copy: Id, sib: Id) {
    && root in s.nodes && 5 < |s.nodes[root].children| == |s.nodes[root].kids|
    && sib !in s.nodes && copy !in v.nodes && v.lines == s.lines && w.lines == s.lines
    && v.nodes.Keys == s.nodes.Keys + {sib} && w.nodes.Keys == v.nodes.Keys + {copy}
    && var n, cut := s.nodes[root], |s.nodes[root].children| - 5;
    && var first, second := Concat(n.kids[..cut]), Concat(n.kids[cut..]);
    && v.nodes[sib] == Chunk(false, [], n.children[cut..], |second|, Sum(second), NIL, second, n.kids[cut..], n.rank)
    && w.nodes[copy] == Chunk(false, [], n.children[..cut], |first|, Sum(first), NIL, first, n.kids[..cut], n.rank)
    && (forall e :: e in s.nodes ==> v.nodes[e] == if e in n.children[cut..] then s.nodes[e].(parent := sib) else s.nodes[e])
    && (forall e :: e in v.nodes ==> w.nodes[e] == if e in n.children[..cut] then v.nodes[e].(parent := copy) else v.nodes[e])
  }

  /** The two halves have become the only children of the root. */
  ghost predicate IsRaised(w: Snap, t: Snap, root: Id, copy: Id, sib: Id) {
    && root in w.nodes && copy in w.nodes && sib in w.nodes && 5 < |w.nodes[root].children| == |w.nodes[root].kids|
    && t.nodes.Keys == w.nodes.Keys && t.lines == w.lines
    && var n, cut := w.nodes[root], |w.nodes[root].children| - 5;
    && t.nodes[copy] == w.nodes[copy].(parent := root) && t.nodes[sib] == w.nodes[sib].(parent := root)
    && t.nodes[root] == n.(children := [copy, sib], kids := [Concat(n.kids[0..cut]), Concat(n.kids[cut..])], rank := n.rank + 1)
    && forall e :: e in w.nodes && e != root && e != copy && e != sib ==> t.nodes[e] == w.nodes[e]
  }

  lemma {:induction false} RootSplitDone(s: Snap, v: Snap, w: Snap, t: Snap, root: Id, copy: Id, sib: Id)
    requires IsHalved(s, v, w, root, copy, sib) && BranchOk(s, root, s.nodes[root], NIL) && !s.nodes[root].isLeaf
    requires w.nodes[root] == s.nodes[root] && IsRaised(w, t, root, copy, sib)
    ensures IsRootSplit(s, t, root, copy, sib)
  {
    hide Concat, Sum, BranchOk, Half;
    var n, cut := s.nodes[root], |s.nodes[root].children| - 5;
    assert n.children[..cut] == n.children[0..cut];
    HalvesApart(s, root, sib);
    RaisedHalves(s, v, w, t, root, copy, sib);
    forall e | e in s.nodes && e != root
      ensures t.nodes[e] == if e in n.children[0..cut] then s.nodes[e].(parent := copy)
                            else if e in n.children[cut..] then s.nodes[e].(parent := sib) else s.nodes[e]
    {
      RootSplitOther(s, v, w, t, root, copy, sib, e);
    }
  }

  /** The halves and the root. */
  lemma {:induction false} RaisedHalves(s: Snap, v: Snap, w: Snap, t: Snap, root: Id, copy: Id, sib: Id)
    requires IsHalved(s, v, w, root, copy, sib) && w.nodes[root] == s.nodes[root] && IsRaised(w, t, root, copy, sib)
    requires var n, cut := s.nodes[root], |s.nodes[root].children| - 5; sib !in n.children[..cut]
    ensures var n, cut := s.nodes[root], |s.nodes[root].children| - 5;
      && t.nodes[copy] == Half(n, 0, cut, root) && t.nodes[sib] == Half(n, cut, |n.children|, root)
      && t.nodes[root] == n.(children := [copy, sib], kids := [Concat(n.kids[0..cut]), Concat(n.kids[cut..])], rank := n.rank + 1)
  {
    hide Concat, Sum;
    var n, cut := s.nodes[root], |s.nodes[root].children| - 5;
    assert n.children[cut..|n.children|] == n.children[cut..] && n.kids[cut..|n.kids|] == n.kids[cut..];
    assert n.children[..cut] == n.children[0..cut] && n.kids[..cut] == n.kids[0..cut];
  }

  lemma RootSplitOther(s: Snap, v: Snap, w: Snap, t: Snap, root: Id, copy: Id, sib: Id, e: Id)
    requires IsHalved(s, v, w, root, copy, sib) && IsRaised(w, t, root, copy, sib) && w.nodes[root] == s.nodes[root]
    requires var n, cut := s.nodes[root], |s.nodes[root].children| - 5;
      forall x :: x in n.children[..cut] ==> x !in n.children[cut..]
    requires e in s.nodes && e != root
    ensures var n, cut := s.nodes[root], |s.nodes[root].children| - 5;
      t.nodes[e] == if e in n.children[..cut] then s.nodes[e].(parent := copy)
                    else if e in n.children[cut..] then s.nodes[e].(parent := sib) else s.nodes[e]
  {}

  lemma {:induction false} HalvesApart(s: Snap, root: Id, sib: Id)
    requires root in s.nodes && BranchOk(s, root, s.nodes[root], NIL) && 5 < |s.nodes[root].children| && sib !in s.nodes
    ensures var n, cut := s.nodes[root], |s.nodes[root].children| - 5;
      sib !in n.children[..cut] && root !in n.children && forall e :: e in n.children[0..cut] ==> e !in n.children[cut..]
  {
    SlicesApart(s.nodes[root].children, |s.nodes[root].children| - 5);
    ChildrenAreNodes(s, root, NIL);
  }

  lemma {:induction false} NoLongerOver(s: Snap, root: Id, a: Ref, b: Ref)
    requires Bounds(s, root, a, b) && a in s.nodes && !s.nodes[a].isLeaf && |s.nodes[a].children| <= 10
    ensures Bounds(s, root, b, NIL)
  {
    forall c | c in s.nodes ensures SizeOk(s, c, root, b, NIL) {
      assert SizeOk(s, c, root, a, b);
    }
  }

  lemma {:induction false} WiderBounds(s: Snap, root: Id, a: Ref, b: Ref)
    requires Bounds(s, root, a, NIL)
    ensures Bounds(s, root, a, b)
  {
    forall c | c in s.nodes ensures SizeOk(s, c, root, a, b) {
      assert SizeOk(s, c, root, a, NIL);
    }
  }

  lemma {:induction false} RankBelowRoot(s: Snap, root: Id, c: Id)
    requires Inv(s, root, NIL) && c in s.nodes
    ensures s.nodes[c].rank <= s.nodes[root].rank && (c != root ==> s.nodes[c].parent in s.nodes)
    ensures c != root ==> !s.nodes[s.nodes[c].parent].isLeaf && s.nodes[c].rank < s.nodes[s.nodes[c].parent].rank
  {
    assert NodeOk(s, c, root, NIL);
    if c != root {
      var p := s.nodes[c].parent;
      assert NodeOk(s, p, root, NIL);
      ChildrenAreNodes(s, p, NIL);
    }
  }

  lemma {:induction false} EnterBounds(s: Snap, root: Id, c: Id, i: nat, at: nat, added: seq<Cell>)
    requires Bounds(s, root, NIL, NIL) && c in s.nodes && i < |s.nodes[c].kids| && at <= |s.nodes[c].kids[i]|
    requires |Concat(s.nodes[c].kids[..i])| + at <= |s.nodes[c].cells|
    ensures Bounds(AfterEnter(s, c, i, at, added), root, NIL, NIL)
  {
    var t := AfterEnter(s, c, i, at, added);
    forall e | e in t.nodes ensures SizeOk(t, e, root, NIL, NIL) {
      assert SizeOk(s, e, root, NIL, NIL);
    }
  }

  lemma {:induction false} LeafInsertBounds(s: Snap, root: Id, c: Id, at: nat, lines: seq<Id>, height: int)
    requires Bounds(s, root, NIL, NIL) && c in s.nodes && Loose(s, lines)
    requires at <= |s.nodes[c].lines| && at <= |s.nodes[c].cells|
    ensures Bounds(AfterLeafInsert(s, c, at, lines, height), root, c, NIL)
  {
    var t := AfterLeafInsert(s, c, at, lines, height);
    forall e | e in t.nodes ensures SizeOk(t, e, root, c, NIL) {
      assert SizeOk(s, e, root, NIL, NIL);
    }
  }

  lemma {:induction false} LeafNotOver(s: Snap, root: Id, d: Id)
    requires Bounds(s, root, d, NIL) && d in s.nodes && s.nodes[d].isLeaf && |s.nodes[d].lines| <= 50
    ensures Bounds(s, root, NIL, NIL)
  {
    forall e | e in s.nodes ensures SizeOk(s, e, root, NIL, NIL) {
      assert SizeOk(s, e, root, d, NIL);
    }
  }

  lemma {:induction false} ChildRank(s: Snap, root: Id, x: Ref, c: Id, i: nat)
    requires Inv(s, root, x) && c in s.nodes && !s.nodes[c].isLeaf && i < |s.nodes[c].children|
    ensures s.nodes[c].children[i] in s.nodes && s.nodes[s.nodes[c].children[i]].rank < s.nodes[c].rank
  {
    assert NodeOk(s, c, root, x) && OwnChild(s, c, s.nodes[c], i, x);
  }

  /** The root has no parent that could have counted ahead. */
  lemma {:induction false} StartAtRoot(s: Snap, root: Id)
    requires Inv(s, root, NIL)
    ensures Inv(s, root, root) && forall k :: Ahead(s, root, k)
  {
    assert NodeOk(s, root, root, NIL);
    forall c | c in s.nodes ensures NodeOk(s, c, root, root) {
      assert NodeOk(s, c, root, NIL);
      var n := s.nodes[c];
      if !n.isLeaf {
        forall i | 0 <= i < |n.children| ensures OwnChild(s, c, n, i, root) {
          assert OwnChild(s, c, n, i, NIL);
        }
      }
    }
  }
}
