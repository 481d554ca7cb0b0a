/** What one removal does to the chunks, step by step, and why each step keeps them consistent. */
module ChunkRemove {
  import opened Seqs
  import opened Chunks
  import opened ChunkInsert

  // ------------------------------------------------------------------ removal: links without counts

  /** A branch whose caches are being changed: only its links are in order. */
  ghost predicate LinkOk(s: Snap, c: Id, n: Chunk) {
    && !n.isLeaf && n.lines == [] && NoDup(n.children)
    && forall i :: 0 <= i < |n.children| ==> LinkedChild(s, c, n, n.children[i])
  }

  ghost predicate LinkedChild(s: Snap, c: Id, n: Chunk, d: Id) {
    d in s.nodes && s.nodes[d].parent == c && s.nodes[d].rank < n.rank
  }

  ghost predicate OffOk(s: Snap, c: Id, root: Id, A: set<Id>)
    requires c in s.nodes && root in s.nodes
  {
    if c in A then ParentOk(s, c, s.nodes[c], root) && LinkOk(s, c, s.nodes[c]) else NodeOk(s, c, root, NIL)
  }

  /** Every node outside A is consistent; those in A are linked correctly. */
  ghost predicate InvOff(s: Snap, root: Id, A: set<Id>) {
    && root in s.nodes && !s.nodes[root].isLeaf
    && forall c {:trigger OffOk(s, c, root, A)} :: c in s.nodes ==> OffOk(s, c, root, A)
  }

  lemma {:induction false} InvIsOffNowhere(s: Snap, root: Id)
    ensures InvOff(s, root, {}) <==> Inv(s, root, NIL)
  {
    if Inv(s, root, NIL) {
      forall c | c in s.nodes ensures OffOk(s, c, root, {}) { assert NodeOk(s, c, root, NIL); }
    }
    if InvOff(s, root, {}) {
      forall c | c in s.nodes ensures NodeOk(s, c, root, NIL) { assert OffOk(s, c, root, {}); }
    }
  }

  lemma {:induction false} LinkedChildren(s: Snap, c: Id, root: Id, A: set<Id>)
    requires c in s.nodes && root in s.nodes && OffOk(s, c, root, A) && !s.nodes[c].isLeaf
    ensures NoDup(s.nodes[c].children)
    ensures forall d :: d in s.nodes[c].children ==> LinkedChild(s, c, s.nodes[c], d)
  {
    var n := s.nodes[c];
    if c !in A { ChildrenAreNodes(s, c, NIL); }
    forall d | d in n.children ensures LinkedChild(s, c, n, d) {
      var i :| 0 <= i < |n.children| && n.children[i] == d;
      if c in A { assert LinkedChild(s, c, n, n.children[i]); }
    }
  }

  // ------------------------------------------------------------------ removing lines of a leaf

  ghost predicate IsOrphaned(a: map<Id, Line>, b: map<Id, Line>, gone: seq<Id>) {
    b.Keys == a.Keys && forall l :: l in a ==> b[l] == if l in gone then a[l].(parent := NIL) else a[l]
  }

  ghost predicate IsLeafRemoved(s: Snap, t: Snap, d: Id, at: nat, to: nat) {
    && d in s.nodes && t.nodes.Keys == s.nodes.Keys
    && var n := s.nodes[d];
    && at <= to <= |n.lines| && to <= |n.cells|
    && t.nodes[d] == n.(lines := Cut(n.lines, at, to - at), cells := Cut(n.cells, at, to - at),
                        height := n.height - Sum(n.cells[at..to]))
    && (forall e :: e in s.nodes && e != d ==> t.nodes[e] == s.nodes[e])
    && IsOrphaned(s.lines, t.lines, n.lines[at..to])
  }

  /** The lines of the cells from number a to b are in no leaf. */
  ghost predicate Freed(lines: map<Id, Line>, cells: seq<Cell>, a: nat, b: nat) {
    b <= |cells| && forall i :: a <= i < b ==> cells[i].line in lines && lines[cells[i].line].parent == NIL
  }

  lemma {:induction false} LeafFreed(s: Snap, t: Snap, d: Id, at: nat, to: nat)
    requires IsLeafRemoved(s, t, d, at, to) && LeafOk(s, d, s.nodes[d])
    ensures Freed(t.lines, s.nodes[d].cells, at, to)
  {
    var n := s.nodes[d];
    forall i | at <= i < to ensures n.cells[i].line in t.lines && t.lines[n.cells[i].line].parent == NIL {
      assert OwnLine(s, d, n.lines[i], n.cells[i]) && n.lines[at..to][i - at] == n.lines[i];
    }
  }

  lemma {:induction false} LeafRemoveKeeps(s: Snap, t: Snap, root: Id, A: set<Id>, d: Id, at: nat, to: nat)
    requires InvOff(s, root, A) && IsLeafRemoved(s, t, d, at, to) && s.nodes[d].isLeaf
    requires d !in A && s.nodes[d].parent in A
    ensures InvOff(t, root, A)
  {
    assert OffOk(s, d, root, A);
    CutLeafOk(s, t, d, at, to);
    SumCut(s.nodes[d].cells, at, to);
    forall e | e in t.nodes ensures OffOk(t, e, root, A) {
      assert OffOk(s, e, root, A);
      if e != d {
        BesideLeafRemoved(s, t, root, A, d, at, to, e);
      }
    }
  }

  lemma {:induction false} SumCut(cells: seq<Cell>, at: nat, to: nat)
    requires at <= to <= |cells|
    ensures Sum(Cut(cells, at, to - at)) == Sum(cells) - Sum(cells[at..to])
  {
    SumSlices(cells, 0, at, to);
    SumSlices(cells, 0, to, |cells|);
    assert cells[0..|cells|] == cells && cells[0..at] == cells[..at] && cells[to..|cells|] == cells[to..];
    assert at + (to - at) == to;
    SumAppend(cells[..at], cells[to..]);
  }

  lemma {:induction false} CutLeafOk(s: Snap, t: Snap, d: Id, at: nat, to: nat)
    requires IsLeafRemoved(s, t, d, at, to) && LeafOk(s, d, s.nodes[d])
    ensures LeafOk(t, d, t.nodes[d])
  {
    hide Sum;
    var n, m := s.nodes[d], t.nodes[d];
    forall i | 0 <= i < |m.lines| ensures OwnLine(t, d, m.lines[i], m.cells[i]) {
      var k := if i < at then i else i + (to - at);
      assert m.lines[i] == n.lines[k] && m.cells[i] == n.cells[k];
      assert OwnLine(s, d, n.lines[k], n.cells[k]);
      forall j | 0 <= j < to - at ensures n.lines[at..to][j] != n.lines[k] {
        assert n.lines[at + j] != n.lines[k];
      }
    }
  }

  lemma {:induction false} BesideLeafRemoved(s: Snap, t: Snap, root: Id, A: set<Id>, d: Id, at: nat, to: nat, e: Id)
    requires IsLeafRemoved(s, t, d, at, to) && LeafOk(s, d, s.nodes[d]) && root in s.nodes
    requires d !in A && s.nodes[d].parent in A && s.nodes[d].isLeaf
    requires e in s.nodes && e != d && OffOk(s, e, root, A)
    ensures OffOk(t, e, root, A)
  {
    var n := s.nodes[e];
    if e in A {
      forall i | 0 <= i < |n.children| ensures LinkedChild(t, e, n, n.children[i]) {
        assert LinkedChild(s, e, n, n.children[i]);
      }
    } else if n.isLeaf {
      LeafOwns(s, d);
      assert forall l :: l in s.nodes[d].lines[at..to] ==> l in s.nodes[d].lines;
      OtherLeafOk(s, t, e);
    } else {
      SameBranchOk(s, t, e, n);
    }
  }

  // ------------------------------------------------------------------ removing a child

  /** A set of nodes closed under children, hanging off c. */
  ghost predicate IsSubtree(s: Snap, c: Id, V: set<Id>) {
    && (forall e :: e in V ==> e in s.nodes && e != c && (s.nodes[e].parent == c || s.nodes[e].parent in V))
    && (forall e, d :: e in V && d in s.nodes[e].children ==> d in V)
  }

  /** c has given up the child at i, with everything below it. */
  ghost predicate IsDropped(s: Snap, t: Snap, c: Id, i: nat, V: set<Id>) {
    && c in s.nodes && i < |s.nodes[c].children| && s.nodes[c].children[i] in V && IsSubtree(s, c, V)
    && (forall j :: 0 <= j < |s.nodes[c].children| && j != i ==> s.nodes[c].children[j] !in V)
    && t.nodes.Keys == s.nodes.Keys - V && t.lines == s.lines
    && t.nodes[c] == s.nodes[c].(children := Cut(s.nodes[c].children, i, 1))
    && (forall e :: e in t.nodes && e != c ==> t.nodes[e] == s.nodes[e])
  }

  lemma {:induction false} DropKeeps(s: Snap, t: Snap, root: Id, A: set<Id>, c: Id, i: nat, V: set<Id>)
    requires InvOff(s, root, A) && c in A && IsDropped(s, t, c, i, V) && A !! V && root !in V
    ensures InvOff(t, root, A)
  {
    assert OffOk(s, c, root, A);
    forall e | e in t.nodes ensures OffOk(t, e, root, A) {
      assert OffOk(s, e, root, A);
      KeptParent(s, t, root, A, c, i, V, e);
      if e == c {
        CutChildrenLinked(s, t, c, i, V);
      } else if e in A {
        var n := s.nodes[e];
        forall k | 0 <= k < |n.children| ensures LinkedChild(t, e, n, n.children[k]) {
          assert LinkedChild(s, e, n, n.children[k]);
        }
      } else if s.nodes[e].isLeaf {
        OtherLeafOk(s, t, e);
      } else {
        SameBranchOk(s, t, e, s.nodes[e]);
      }
    }
  }

  lemma {:induction false} KeptParent(s: Snap, t: Snap, root: Id, A: set<Id>, c: Id, i: nat, V: set<Id>, e: Id)
    requires IsDropped(s, t, c, i, V) && root in s.nodes && root !in V && c !in V
    requires e in t.nodes && ParentOk(s, e, s.nodes[e], root)
    ensures ParentOk(t, e, t.nodes[e], root)
  {
    var p := s.nodes[e].parent;
    if p != NIL {
      assert p !in V;
      if p == c {
        var k :| 0 <= k < |s.nodes[c].children| && s.nodes[c].children[k] == e;
        assert t.nodes[c].children[if k < i then k else k - 1] == e;
      }
    }
  }

  lemma {:induction false} CutChildrenLinked(s: Snap, t: Snap, c: Id, i: nat, V: set<Id>)
    requires IsDropped(s, t, c, i, V) && LinkOk(s, c, s.nodes[c]) && c !in V
    ensures LinkOk(t, c, t.nodes[c])
  {
    var n, m := s.nodes[c], t.nodes[c];
    forall k | 0 <= k < |m.children| ensures LinkedChild(t, c, m, m.children[k]) {
      var j := if k < i then k else k + 1;
      assert m.children[k] == n.children[j];
      assert LinkedChild(s, c, n, n.children[j]);
    }
  }

  // ------------------------------------------------------------------ collapsing a small branch

  /** V: the children `tops` of c and everything below them. */
  ghost predicate IsForest(s: Snap, c: Id, tops: seq<Id>, V: set<Id>)
    requires c in s.nodes
  {
    && (forall d :: d in tops ==> d in V && d in s.nodes && s.nodes[d].parent == c)
    && (forall e :: e in V ==> e in s.nodes && s.nodes[e].rank < s.nodes[c].rank && (e in tops || s.nodes[e].parent in V))
    && (forall e, d :: e in V && d in s.nodes[e].children ==> d in V)
  }

  /** Climbing from a node of two forests leads to a common top. */
  lemma {:induction false} NotInBoth(s: Snap, root: Id, A: set<Id>, c: Id, t1: seq<Id>, V1: set<Id>, t2: seq<Id>, V2: set<Id>, e: Id)
    requires InvOff(s, root, A) && c in s.nodes && IsForest(s, c, t1, V1) && IsForest(s, c, t2, V2) && Apart(t1, t2)
    requires e in V1 && e in V2
    ensures false
    decreases s.nodes[c].rank - s.nodes[e].rank
  {
    if e !in t1 && e !in t2 {
      assert OffOk(s, e, root, A);
      var p := s.nodes[e].parent;
      assert OffOk(s, p, root, A);
      LinkedChildren(s, p, root, A);
      NotInBoth(s, root, A, c, t1, V1, t2, V2, p);
    }
  }

  /** The line is held by a leaf in V and counted with its height. */
  ghost predicate HeldIn(s: Snap, V: set<Id>, l: Id, cell: Cell) {
    l in s.lines && s.lines[l].parent in V && cell == Cell(l, s.lines[l].height)
  }

  ghost predicate IsGathered(s: Snap, V: set<Id>, ls: seq<Id>, cells: seq<Cell>) {
    |ls| == |cells| && NoDup(ls) && forall i :: 0 <= i < |ls| ==> HeldIn(s, V, ls[i], cells[i])
  }

  lemma {:induction false} GatheredLines(s: Snap, V: set<Id>, ls: seq<Id>, cells: seq<Cell>)
    requires IsGathered(s, V, ls, cells)
    ensures forall l :: l in ls ==> l in s.lines && s.lines[l].parent in V
  {
    forall l | l in ls ensures l in s.lines && s.lines[l].parent in V {
      var i :| 0 <= i < |ls| && ls[i] == l;
      assert HeldIn(s, V, ls[i], cells[i]);
    }
  }

  /** Two gatherings from separate forests. */
  lemma {:induction false} GatherBoth(s: Snap, root: Id, A: set<Id>, c: Id, t1: seq<Id>, V1: set<Id>, l1: seq<Id>, c1: seq<Cell>,
                   t2: seq<Id>, V2: set<Id>, l2: seq<Id>, c2: seq<Cell>)
    requires InvOff(s, root, A) && c in s.nodes && IsForest(s, c, t1, V1) && IsForest(s, c, t2, V2) && Apart(t1, t2)
    requires IsGathered(s, V1, l1, c1) && IsGathered(s, V2, l2, c2)
    ensures IsForest(s, c, t1 + t2, V1 + V2) && IsGathered(s, V1 + V2, l1 + l2, c1 + c2)
  {
    hide InvOff;
    GatheredLines(s, V1, l1, c1);
    GatheredLines(s, V2, l2, c2);
    forall l | l in l1 ensures l !in l2 {
      if l in l2 { NotInBoth(s, root, A, c, t1, V1, t2, V2, s.lines[l].parent); }
    }
    NoDupAppend(l1, l2);
    var ls, cells := l1 + l2, c1 + c2;
    forall i | 0 <= i < |ls| ensures HeldIn(s, V1 + V2, ls[i], cells[i]) {
      if i < |l1| { assert HeldIn(s, V1, l1[i], c1[i]); } else { assert HeldIn(s, V2, l2[i - |l1|], c2[i - |l1|]); }
    }
  }

  lemma {:induction false} LeafGathered(s: Snap, d: Id)
    requires d in s.nodes && LeafOk(s, d, s.nodes[d])
    ensures IsGathered(s, {d}, s.nodes[d].lines, s.nodes[d].cells)
  {
    var n := s.nodes[d];
    forall i | 0 <= i < |n.lines| ensures HeldIn(s, {d}, n.lines[i], n.cells[i]) {
      assert OwnLine(s, d, n.lines[i], n.cells[i]);
    }
  }

  lemma {:induction false} MoreGathered(s: Snap, V: set<Id>, W: set<Id>, ls: seq<Id>, cells: seq<Cell>)
    requires IsGathered(s, V, ls, cells) && V <= W
    ensures IsGathered(s, W, ls, cells)
  {
    forall i | 0 <= i < |ls| ensures HeldIn(s, W, ls[i], cells[i]) { assert HeldIn(s, V, ls[i], cells[i]); }
  }

  /** The forest of a branch with the branch on top. */
  lemma {:induction false} ForestWithTop(s: Snap, root: Id, A: set<Id>, d: Id, V: set<Id>)
    requires InvOff(s, root, A) && d in s.nodes && d !in A && d != root && IsForest(s, d, s.nodes[d].children, V)
    ensures var p := s.nodes[d].parent; p in s.nodes && IsForest(s, p, [d], V + {d})
  {
    assert OffOk(s, d, root, A);
    var p := s.nodes[d].parent;
    assert OffOk(s, p, root, A);
    LinkedChildren(s, p, root, A);
    assert LinkedChild(s, p, s.nodes[p], d);
  }

  /** All children of c have been replaced by one leaf with their lines. */
  ghost predicate IsCollapsed(s: Snap, t: Snap, c: Id, V: set<Id>, leaf: Id, ls: seq<Id>, cells: seq<Cell>) {
    && c in s.nodes && leaf !in s.nodes && IsForest(s, c, s.nodes[c].children, V)
    && IsGathered(s, V, ls, cells)
    && t.nodes.Keys == s.nodes.Keys - V + {leaf}
    && t.nodes[leaf] == Chunk(true, ls, [], 0, Sum(cells), c, cells, [], 0)
    && t.nodes[c] == s.nodes[c].(children := [leaf])
    && (forall e :: e in s.nodes && e !in V && e != c ==> t.nodes[e] == s.nodes[e])
    && IsAdopted(s.lines, t.lines, ls, leaf)
  }

  lemma {:induction false} CollapseKeeps(s: Snap, t: Snap, root: Id, A: set<Id>, c: Id, V: set<Id>, leaf: Id, ls: seq<Id>, cells: seq<Cell>)
    requires InvOff(s, root, A) && c in A && IsCollapsed(s, t, c, V, leaf, ls, cells)
    requires A !! V && root !in V && c !in V && leaf !in A && s.nodes[c].rank > 0
    ensures InvOff(t, root, A)
  {
    assert OffOk(s, c, root, A) && OffOk(s, root, root, A);
    GatheredLines(s, V, ls, cells);
    forall e | e in t.nodes ensures OffOk(t, e, root, A) {
      if e == leaf {
        NewGatheredLeaf(s, t, root, A, c, V, leaf, ls, cells);
      } else {
        assert OffOk(s, e, root, A);
        BesideCollapsed(s, t, root, A, c, V, leaf, ls, cells, e);
      }
    }
  }

  lemma {:induction false} NewGatheredLeaf(s: Snap, t: Snap, root: Id, A: set<Id>, c: Id, V: set<Id>, leaf: Id, ls: seq<Id>, cells: seq<Cell>)
    requires IsCollapsed(s, t, c, V, leaf, ls, cells) && root in s.nodes && root !in V && c !in V && OffOk(s, c, root, A) && c in A
    requires s.nodes[c].rank > 0
    ensures NodeOk(t, leaf, root, NIL)
    ensures leaf in A ==> OffOk(s, c, root, A)
  {
    forall i | 0 <= i < |ls| ensures OwnLine(t, leaf, ls[i], cells[i]) {
      assert HeldIn(s, V, ls[i], cells[i]);
      assert ls[i] in ls;
    }
    assert t.nodes[c].children[0] == leaf;
  }

  lemma {:induction false} BesideCollapsed(s: Snap, t: Snap, root: Id, A: set<Id>, c: Id, V: set<Id>, leaf: Id, ls: seq<Id>, cells: seq<Cell>, e: Id)
    requires IsCollapsed(s, t, c, V, leaf, ls, cells) && root in s.nodes && A !! V && root !in V && c in A && c !in V
    requires s.nodes[c].rank > 0 && OffOk(s, c, root, A)
    requires e in s.nodes && e !in V && OffOk(s, e, root, A)
    requires forall l :: l in ls ==> l in s.lines && s.lines[l].parent in V
    ensures OffOk(t, e, root, A)
  {
    var n := s.nodes[e];
    assert n.parent != NIL && n.parent != c ==> n.parent !in V;
    if e == c {
      assert LinkedChild(t, c, t.nodes[c], leaf);
    } else if e in A {
      forall k | 0 <= k < |n.children| ensures LinkedChild(t, e, n, n.children[k]) {
        assert LinkedChild(s, e, n, n.children[k]);
        assert n.children[k] !in s.nodes[c].children;
      }
    } else if n.isLeaf {
      OtherLeafOk(s, t, e);
    } else {
      SameBranchOk(s, t, e, n);
    }
  }

  // ------------------------------------------------------------------ recounting a branch

  /** A branch in A whose caches have been brought up to date is consistent again. */
  lemma {:induction false} RecountKeeps(s: Snap, t: Snap, root: Id, A: set<Id>, c: Id)
    requires InvOff(s, root, A) && c in A && c in s.nodes && t.lines == s.lines && t.nodes.Keys == s.nodes.Keys
    requires forall e :: e in s.nodes && e != c ==> t.nodes[e] == s.nodes[e]
    requires t.nodes[c] == s.nodes[c].(size := t.nodes[c].size, height := t.nodes[c].height, cells := t.nodes[c].cells, kids := t.nodes[c].kids)
    requires var n := t.nodes[c];
      n.children != [] && |n.kids| == |n.children| && n.cells == Concat(n.kids) && n.size == |n.cells| && n.height == Sum(n.cells) &&
      forall i :: 0 <= i < |n.children| && n.children[i] in s.nodes ==> n.kids[i] == s.nodes[n.children[i]].cells
    requires s.nodes[c].parent == NIL || s.nodes[c].parent in A
    ensures InvOff(t, root, A - {c})
  {
    assert OffOk(s, c, root, A);
    var m := t.nodes[c];
    NotOwnLinkedParent(s, c, root, A);
    forall i | 0 <= i < |m.children| ensures OwnChild(t, c, m, i, NIL) {
      assert LinkedChild(s, c, s.nodes[c], s.nodes[c].children[i]);
    }
    forall e | e in t.nodes ensures OffOk(t, e, root, A - {c}) {
      assert OffOk(s, e, root, A);
      if e != c {
        BesideRecounted(s, t, root, A, c, e);
      }
    }
  }

  lemma {:induction false} NotOwnLinkedParent(s: Snap, c: Id, root: Id, A: set<Id>)
    requires c in s.nodes && root in s.nodes && OffOk(s, c, root, A) && c in A
    ensures s.nodes[c].parent != c
  {
    if s.nodes[c].parent == c {
      LinkedChildren(s, c, root, A);
      assert false;
    }
  }

  lemma {:induction false} BesideRecounted(s: Snap, t: Snap, root: Id, A: set<Id>, c: Id, e: Id)
    requires c in A && c in s.nodes && root in s.nodes && t.lines == s.lines && t.nodes.Keys == s.nodes.Keys
    requires forall e :: e in s.nodes && e != c ==> t.nodes[e] == s.nodes[e]
    requires t.nodes[c] == s.nodes[c].(size := t.nodes[c].size, height := t.nodes[c].height, cells := t.nodes[c].cells, kids := t.nodes[c].kids)
    requires s.nodes[c].parent == NIL || s.nodes[c].parent in A
    requires e in s.nodes && e != c && OffOk(s, e, root, A)
    ensures OffOk(t, e, root, A - {c})
  {
    var n := s.nodes[e];
    if e in A {
      forall k | 0 <= k < |n.children| ensures LinkedChild(t, e, n, n.children[k]) {
        assert LinkedChild(s, e, n, n.children[k]);
      }
    } else if n.isLeaf {
      OtherLeafOk(s, t, e);
    } else {
      SameBranchOk(s, t, e, n);
    }
  }

  // ------------------------------------------------------------------ sizes and frame of a removal

  /** As SizeOk, but the nodes in X may be without lines. */
  ghost predicate SizeR(s: Snap, c: Id, X: set<Id>)
    requires c in s.nodes
  {
    var n := s.nodes[c];
    (c in X || n.cells != []) && if n.isLeaf then |n.lines| <= 50 else |n.children| <= 10
  }

  ghost predicate SizeBound(s: Snap, X: set<Id>) {
    forall c {:trigger SizeR(s, c, X)} :: c in s.nodes ==> SizeR(s, c, X)
  }

  lemma {:induction false} BoundsAreSizes(s: Snap, root: Id)
    requires Inv(s, root, NIL) && Bounds(s, root, NIL, NIL) && s.nodes[root].cells != []
    ensures SizeBound(s, {root})
  {
    assert NodeOk(s, root, root, NIL);
    forall c | c in s.nodes ensures SizeR(s, c, {root}) {
      assert SizeOk(s, c, root, NIL, NIL);
      if OnlyLeaf(s, c, root) {
        assert OwnChild(s, root, s.nodes[root], 0, NIL);
        assert s.nodes[root].kids == [s.nodes[c].cells];
        ConcatOne(s.nodes[c].cells);
      }
    }
  }

  /** Nodes that may have become empty when the lines below c were removed. */
  ghost function Emptied(s: Snap, c: Id): set<Id>
    requires c in s.nodes
  {
    if s.nodes[c].cells == [] then {c} + (set d | d in s.nodes[c].children) else {c}
  }

  /** Only nodes of D, which hang together below c, have changed; new ones were not in use. */
  ghost predicate Framed(s: Snap, t: Snap, c: Id, A: set<Id>, D: set<Id>, next: Id) {
    && (forall e :: e in s.nodes && e !in D ==> e in t.nodes && t.nodes[e] == s.nodes[e])
    && (forall e :: e in D ==> e in s.nodes && e !in A && (e == c || s.nodes[e].parent in D))
    && (forall e :: e in t.nodes ==> e in s.nodes || e >= next)
  }

  /** After a removal below c: c itself and what its parent needs to know about it. */
  ghost predicate Removed(s: Snap, t: Snap, root: Id, A: set<Id>, c: Id, at: nat, k: nat) {
    && c in s.nodes && c in t.nodes && at + k <= |s.nodes[c].cells|
    && t.nodes[c].isLeaf == s.nodes[c].isLeaf && t.nodes[c].parent == s.nodes[c].parent && t.nodes[c].rank == s.nodes[c].rank
    && t.nodes[c].cells == Cut(s.nodes[c].cells, at, k)
    && SizeBound(t, A + {root} + Emptied(t, c))
    && (!t.nodes[c].isLeaf && |t.nodes[c].cells| < 25 ==>
          |t.nodes[c].children| == 1 && t.nodes[c].children[0] in t.nodes && t.nodes[t.nodes[c].children[0]].isLeaf)
  }

  lemma {:induction false} CellsAreHeights(s: Snap, d: Id, at: nat, to: nat)
    requires d in s.nodes && LeafOk(s, d, s.nodes[d]) && at <= to <= |s.nodes[d].lines|
    ensures var n := s.nodes[d];
      var ls, cells := n.lines[at..to], n.cells[at..to];
      forall i :: 0 <= i < |ls| ==> ls[i] in s.lines && cells[i].height == s.lines[ls[i]].height
  {
    var n := s.nodes[d];
    var ls, cells := n.lines[at..to], n.cells[at..to];
    forall i | 0 <= i < |ls| ensures ls[i] in s.lines && cells[i].height == s.lines[ls[i]].height {
      assert OwnLine(s, d, n.lines[at + i], n.cells[at + i]);
    }
  }

  lemma {:induction false} LeafRemoveSizes(s: Snap, t: Snap, root: Id, A: set<Id>, d: Id, at: nat, to: nat)
    requires SizeBound(s, A + {root}) && IsLeafRemoved(s, t, d, at, to) && s.nodes[d].isLeaf
    ensures SizeBound(t, A + {root} + Emptied(t, d))
  {
    forall e | e in t.nodes ensures SizeR(t, e, A + {root} + Emptied(t, d)) {
      assert SizeR(s, e, A + {root});
    }
  }

  lemma {:induction false} LeafRemoved(s: Snap, t: Snap, root: Id, A: set<Id>, d: Id, at: nat, k: nat, next: Id)
    requires InvOff(s, root, A) && SizeBound(s, A + {root}) && IsLeafRemoved(s, t, d, at, at + k) && s.nodes[d].isLeaf
    requires d !in A && s.nodes[d].parent in A
    ensures InvOff(t, root, A) && Framed(s, t, d, A, {d}, next) && Removed(s, t, root, A, d, at, k)
  {
    LeafRemoveKeeps(s, t, root, A, d, at, at + k);
    LeafRemoveSizes(s, t, root, A, d, at, at + k);
  }

  // ------------------------------------------------------------------ one child of a branch

  /** Child d of c lost rm of its lines; c counts their height off and gives d up if nothing is left. */
  ghost predicate IsChildRemoved(s: Snap, t: Snap, A: set<Id>, c: Id, i: nat, d: Id, at: nat, rm: nat, D: set<Id>, next: Id) {
    && c in s.nodes && c in t.nodes && d in s.nodes && i < |s.nodes[c].children| && s.nodes[c].children[i] == d
    && at + rm <= |s.nodes[d].cells|
    && var left := Cut(s.nodes[d].cells, at, rm);
    && t.nodes[c] == s.nodes[c].(height := s.nodes[c].height - (Sum(s.nodes[d].cells) - Sum(left)),
                                 children := if left == [] then Cut(s.nodes[c].children, i, 1) else s.nodes[c].children)
    && (left != [] ==> d in t.nodes && t.nodes[d].cells == left)
    && (forall e :: e in s.nodes && e !in D && e != c ==> e in t.nodes && t.nodes[e] == s.nodes[e])
    && (forall e :: e in D ==> e in s.nodes && e !in A && (e == d || s.nodes[e].parent in D))
    && (forall e :: e in t.nodes ==> e in s.nodes || e >= next)
  }

  /** Only the cached size and height of c have changed. */
  ghost predicate IsRecached(s: Snap, t: Snap, c: Id) {
    && t.lines == s.lines && c in s.nodes && c in t.nodes
    && t.nodes == s.nodes[c := s.nodes[c].(size := t.nodes[c].size, height := t.nodes[c].height)]
  }

  lemma {:induction false} HeightChangeKeeps(s: Snap, t: Snap, root: Id, A: set<Id>, c: Id)
    requires InvOff(s, root, A) && c in A && IsRecached(s, t, c)
    ensures InvOff(t, root, A)
  {
    forall e | e in t.nodes ensures OffOk(t, e, root, A) {
      assert OffOk(s, e, root, A);
      HeightChangeBeside(s, t, root, A, c, e);
    }
  }

  lemma {:induction false} HeightChangeBeside(s: Snap, t: Snap, root: Id, A: set<Id>, c: Id, e: Id)
    requires root in s.nodes && c in A && IsRecached(s, t, c)
    requires e in s.nodes && OffOk(s, e, root, A)
    ensures OffOk(t, e, root, A)
  {
    var n := s.nodes[e];
    if e in A {
      forall k | 0 <= k < |n.children| ensures LinkedChild(t, e, t.nodes[e], n.children[k]) {
        assert LinkedChild(s, e, n, n.children[k]);
      }
    } else if n.isLeaf {
      OtherLeafOk(s, t, e);
    } else {
      SameBranchOk(s, t, e, n);
    }
  }

  lemma {:induction false} HeightChangeSizes(s: Snap, t: Snap, X: set<Id>, c: Id)
    requires SizeBound(s, X) && IsRecached(s, t, c)
    ensures SizeBound(t, X)
  {
    forall e | e in t.nodes ensures SizeR(t, e, X) { assert SizeR(s, e, X); }
  }

  /** A node that lost all its lines hangs off c with at most one empty leaf below it. */
  lemma {:induction false} EmptiedSubtree(s: Snap, root: Id, A: set<Id>, c: Id, i: nat, d: Id)
    requires InvOff(s, root, A) && c in s.nodes && i < |s.nodes[c].children| && s.nodes[c].children[i] == d && !s.nodes[c].isLeaf
    requires c in A && d in s.nodes && d !in A && s.nodes[d].cells == []
    requires !s.nodes[d].isLeaf ==>
      |s.nodes[d].children| == 1 && s.nodes[d].children[0] in s.nodes && s.nodes[s.nodes[d].children[0]].isLeaf
    requires forall a :: a in A ==> a in s.nodes && s.nodes[a].rank > s.nodes[d].rank
    ensures var V := Emptied(s, d);
      IsSubtree(s, c, V) && A !! V && d in V && (forall e :: e in V ==> e == d || s.nodes[e].parent == d) && (d != root ==> root !in V) && c !in V &&
      forall j :: 0 <= j < |s.nodes[c].children| && j != i ==> s.nodes[c].children[j] !in V
  {
    var V, n, m := Emptied(s, d), s.nodes[c], s.nodes[d];
    assert OffOk(s, c, root, A) && OffOk(s, d, root, A);
    LinkedChildren(s, c, root, A);
    assert LinkedChild(s, c, n, d);
    if m.isLeaf {
      assert V == {d};
    } else {
      var x := m.children[0];
      LinkedChildren(s, d, root, A);
      assert LinkedChild(s, d, m, x);
      assert m.children == [x] && V == {d, x};
      assert OffOk(s, x, root, A);
      assert x !in A;
      RootOnTop(s, root, A, x);
    }
  }

  lemma RootOnTop(s: Snap, root: Id, A: set<Id>, x: Id)
    requires InvOff(s, root, A) && x in s.nodes && s.nodes[x].isLeaf
    ensures x != root
  {}

  /** After the drop: the links and the sizes. */
  lemma {:induction false} DroppedChild(v: Snap, t: Snap, root: Id, A: set<Id>, c: Id, i: nat, d: Id, V: set<Id>)
    requires InvOff(v, root, A) && IsDropped(v, t, c, i, V) && A !! V && root !in V
    requires c in A && SizeBound(v, A + {root} + V)
    ensures InvOff(t, root, A) && SizeBound(t, A + {root})
  {
    DropKeeps(v, t, root, A, c, i, V);
    forall e | e in t.nodes ensures SizeR(t, e, A + {root}) {
      assert SizeR(v, e, A + {root} + V);
    }
  }

  lemma {:induction false} ChildFacts(s: Snap, root: Id, A: set<Id>, c: Id, d: Id)
    requires InvOff(s, root, A) && c in A && c in s.nodes && !s.nodes[c].isLeaf && d in s.nodes[c].children
    requires forall a :: a in A ==> a in s.nodes && s.nodes[a].rank >= s.nodes[c].rank
    ensures d in s.nodes && d !in A && s.nodes[d].parent == c && s.nodes[d].rank < s.nodes[c].rank && d != root
    ensures s.nodes[d].height == Sum(s.nodes[d].cells)
    ensures (if s.nodes[d].isLeaf then |s.nodes[d].lines| else s.nodes[d].size) == |s.nodes[d].cells|
  {
    assert OffOk(s, c, root, A);
    LinkedChildren(s, c, root, A);
    assert LinkedChild(s, c, s.nodes[c], d);
    assert OffOk(s, d, root, A);
  }

  lemma {:induction false} ChildKept(s: Snap, u: Snap, t: Snap, root: Id, A: set<Id>, c: Id, i: nat, d: Id, at: nat, rm: nat, D: set<Id>, next: Id)
    requires c in A && c in s.nodes && d in s.nodes && d !in A && i < |s.nodes[c].children| && s.nodes[c].children[i] == d
    requires Framed(s, u, d, A, D, next) && Removed(s, u, root, A, d, at, rm) && IsRecached(u, t, c)
    requires t.nodes[c] == u.nodes[c].(height := u.nodes[c].height - (Sum(s.nodes[d].cells) - Sum(u.nodes[d].cells)))
    requires rm < |s.nodes[d].cells| && SizeBound(t, A + {root} + Emptied(u, d))
    ensures IsChildRemoved(s, t, A, c, i, d, at, rm, D, next) && SizeBound(t, A + {root})
  {
    assert u.nodes[c] == s.nodes[c];
    forall e | e in t.nodes ensures SizeR(t, e, A + {root}) {
      assert SizeR(t, e, A + {root} + Emptied(u, d));
    }
  }

  lemma {:induction false} ChildDropped(s: Snap, u: Snap, t: Snap, root: Id, A: set<Id>, c: Id, i: nat, d: Id, at: nat, rm: nat, D: set<Id>, V: set<Id>, next: Id)
    requires c in A && c in s.nodes && d in s.nodes && d !in A && i < |s.nodes[c].children| && s.nodes[c].children[i] == d
    requires Framed(s, u, d, A, D, next) && Removed(s, u, root, A, d, at, rm)
    requires V == Emptied(u, d) && t.nodes.Keys == u.nodes.Keys - V && c in t.nodes && A !! V
    requires forall e :: e in V ==> e in u.nodes && (e == d || u.nodes[e].parent == d)
    requires t.nodes[c] == u.nodes[c].(height := u.nodes[c].height - (Sum(s.nodes[d].cells) - Sum(u.nodes[d].cells)),
                                       children := Cut(s.nodes[c].children, i, 1))
    requires forall e :: e in t.nodes && e != c ==> t.nodes[e] == u.nodes[e]
    requires rm == |s.nodes[d].cells|
    ensures IsChildRemoved(s, t, A, c, i, d, at, rm, D + (V * s.nodes.Keys), next)
  {
    assert u.nodes[c] == s.nodes[c];
    assert Cut(s.nodes[d].cells, at, rm) == [];
  }

  // ------------------------------------------------------------------ the loop over the children

  /** The children of c stand for the entries of Q. */
  ghost predicate KidsAre(s: Snap, c: Id, Q: seq<seq<Cell>>)
    requires c in s.nodes
  {
    |Q| == |s.nodes[c].children| && forall x :: 0 <= x < |Q| ==> KidIs(s, s.nodes[c].children[x], Q[x])
  }

  ghost predicate KidIs(s: Snap, d: Id, k: seq<Cell>) {
    d in s.nodes && s.nodes[d].cells == k
  }

  /** Q without rm elements of its entry i, and without that entry if nothing is left of it. */
  ghost function Without(Q: seq<seq<Cell>>, i: nat, at: nat, rm: nat): seq<seq<Cell>>
    requires i < |Q| && at + rm <= |Q[i]|
  {
    var left := Cut(Q[i], at, rm);
    if left == [] then Cut(Q, i, 1) else Q[i := left]
  }

  lemma {:induction false} KidsWithout(s: Snap, t: Snap, root: Id, A: set<Id>, c: Id, i: nat, d: Id, at: nat, rm: nat, D: set<Id>, next: Id, Q: seq<seq<Cell>>)
    requires KidsAre0(s, c, Q) && IsChildRemoved(s, t, A, c, i, d, at, rm, D, next) && InvOff(s, root, A) && c in A
    requires !s.nodes[c].isLeaf
    ensures i < |Q| && at + rm <= |Q[i]| && KidsAre(t, c, Without(Q, i, at, rm))
  {
    hide Concat, Sum, LinkedChild, OffOk, InvOff;
    var n, m := s.nodes[c], t.nodes[c];
    assert KidIs(s, n.children[i], Q[i]);
    var R := Without(Q, i, at, rm);
    forall x | 0 <= x < |R| ensures KidIs(t, m.children[x], R[x]) {
      var y := if Cut(Q[i], at, rm) == [] && x >= i then x + 1 else x;
      if y != i { OtherKid(s, t, root, A, c, i, d, at, rm, D, next, Q, y); }
    }
  }

  /** The other children are as before. */
  lemma {:induction false} OtherKid(s: Snap, t: Snap, root: Id, A: set<Id>, c: Id, i: nat, d: Id, at: nat, rm: nat, D: set<Id>, next: Id, Q: seq<seq<Cell>>, y: nat)
    requires KidsAre0(s, c, Q) && IsChildRemoved(s, t, A, c, i, d, at, rm, D, next) && InvOff(s, root, A) && c in A
    requires !s.nodes[c].isLeaf && y < |Q| && y != i
    ensures KidIs(t, s.nodes[c].children[y], Q[y])
  {
    hide Concat, Sum;
    assert OffOk(s, c, root, A);
    LinkedChildren(s, c, root, A);
    assert KidIs(s, s.nodes[c].children[y], Q[y]);
    assert LinkedChild(s, c, s.nodes[c], s.nodes[c].children[y]);
  }

  ghost predicate KidsAre0(s: Snap, c: Id, Q: seq<seq<Cell>>) {
    c in s.nodes && KidsAre(s, c, Q)
  }

  /** Cutting in one entry is cutting in the whole. */
  lemma {:induction false} ConcatCut<T>(Q: seq<seq<T>>, i: nat, at: nat, rm: nat)
    requires i < |Q| && at + rm <= |Q[i]|
    ensures |Concat(Q[..i])| + at + rm <= |Concat(Q)|
    ensures Concat(Q[i := Cut(Q[i], at, rm)]) == Cut(Concat(Q), |Concat(Q[..i])| + at, rm)
  {
    ConcatAround(Q, i);
    ConcatUpdate(Q, i, Cut(Q[i], at, rm));
    CutInMiddle(Concat(Q[..i]), Q[i], Concat(Q[i + 1..]), at, rm);
  }

  lemma {:induction false} CutInMiddle<T>(a: seq<T>, m: seq<T>, z: seq<T>, at: nat, rm: nat)
    requires at + rm <= |m|
    ensures Cut(a + m + z, |a| + at, rm) == a + Cut(m, at, rm) + z
  {
    var s := a + m + z;
    assert s[..|a| + at] == a + m[..at];
    assert s[|a| + at + rm..] == m[at + rm..] + z;
  }

  /** An entry without elements does not show. */
  lemma {:induction false} ConcatDrop<T>(Q: seq<seq<T>>, i: nat)
    requires i < |Q| && Q[i] == []
    ensures Concat(Cut(Q, i, 1)) == Concat(Q)
  {
    ConcatAround(Q, i);
    ConcatAppend(Q[..i], Q[i + 1..]);
  }

  lemma CutOnceMore<T>(s: seq<T>, t: seq<T>, u: seq<T>, at: nat, k: nat, rm: nat)
    requires at + k + rm <= |s| && t == Cut(s, at, k) && u == Cut(t, at, rm)
    ensures u == Cut(s, at, k + rm)
  {}

  /** One turn of the loop: what is left to cut, and the height. */
  lemma {:induction false} WithoutTotal(Q: seq<seq<Cell>>, i: nat, at: nat, rm: nat, p: nat)
    requires i < |Q| && at + rm <= |Q[i]| && 0 < rm && p == |Concat(Q[..i])| + at && p + rm <= |Concat(Q)|
    ensures var R := Without(Q, i, at, rm);
      && |Concat(R)| == |Concat(Q)| - rm
      && Concat(R) == Cut(Concat(Q), p, rm)
      && Sum(Concat(R)) == Sum(Concat(Q)) - (Sum(Q[i]) - Sum(Cut(Q[i], at, rm)))
  {
    var left := Cut(Q[i], at, rm);
    var U := Q[i := left];
    ConcatCut(Q, i, at, rm);
    WithoutSum(Q, i, left);
    if left == [] {
      ConcatDrop(U, i);
      assert Cut(U, i, 1) == Cut(Q, i, 1);
    }
  }

  /** Where the next child starts. */
  lemma {:induction false} WithoutNext(Q: seq<seq<Cell>>, i: nat, at: nat, rm: nat)
    requires i < |Q| && 0 < rm && at + rm == |Q[i]|
    ensures var R, j := Without(Q, i, at, rm), if rm == |Q[i]| then i else i + 1;
      j <= |R| && |Concat(R[..j])| == |Concat(Q[..i])| + at
  {
    var left := Cut(Q[i], at, rm);
    var U := Q[i := left];
    if left == [] {
      assert Cut(Q, i, 1)[..i] == Q[..i];
    } else {
      ConcatSnoc(U, i);
      assert U[..i] == Q[..i];
    }
  }

  lemma {:induction false} WithoutSum(Q: seq<seq<Cell>>, i: nat, left: seq<Cell>)
    requires i < |Q|
    ensures Sum(Concat(Q[i := left])) == Sum(Concat(Q)) - (Sum(Q[i]) - Sum(left))
  {
    var a, z := Concat(Q[..i]), Concat(Q[i + 1..]);
    ConcatAround(Q, i);
    ConcatUpdate(Q, i, left);
    SumAppend(a + Q[i], z);
    SumAppend(a, Q[i]);
    SumAppend(a + left, z);
    SumAppend(a, left);
  }

  /** The links and sizes around c when its removal has ended. */
  ghost predicate IsSettled(s: Snap, root: Id, A: set<Id>, c: Id, Q: seq<seq<Cell>>) {
    && c in s.nodes && KidsAre(s, c, Q) && s.nodes[c].children != []
    && SizeBound(s, A + {c} + {root} + (if Concat(Q) == [] then set d | d in s.nodes[c].children else {}))
    && (|Concat(Q)| < 25 ==>
          |s.nodes[c].children| == 1 && s.nodes[c].children[0] in s.nodes && s.nodes[s.nodes[c].children[0]].isLeaf)
  }

  /** Besides c only nodes of E, which hang below c, have changed. */
  ghost predicate Below(s: Snap, t: Snap, c: Id, A: set<Id>, E: set<Id>, next: Id) {
    && (forall e :: e in s.nodes && e != c && e !in E ==> e in t.nodes && t.nodes[e] == s.nodes[e])
    && (forall e :: e in E ==> e in s.nodes && e !in A && (s.nodes[e].parent == c || s.nodes[e].parent in E))
    && (forall e :: e in t.nodes ==> e in s.nodes || e >= next)
  }

  lemma {:induction false} RecountedKids(s: Snap, t: Snap, c: Id, Q: seq<seq<Cell>>)
    requires c in s.nodes && KidsAre(s, c, Q) && t.nodes.Keys == s.nodes.Keys
    requires t.nodes[c].kids == Q && t.nodes[c].children == s.nodes[c].children
    ensures |t.nodes[c].kids| == |t.nodes[c].children|
    ensures var n := t.nodes[c];
      forall i :: 0 <= i < |n.children| && n.children[i] in s.nodes ==> n.kids[i] == s.nodes[n.children[i]].cells
  {
    forall i | 0 <= i < |Q| ensures Q[i] == s.nodes[s.nodes[c].children[i]].cells { assert KidIs(s, s.nodes[c].children[i], Q[i]); }
  }

  lemma {:induction false} SettledSizes(s: Snap, t: Snap, root: Id, A: set<Id>, c: Id, Q: seq<seq<Cell>>)
    requires IsSettled(s, root, A, c, Q)
    requires t.nodes == s.nodes[c := s.nodes[c].(kids := Q, cells := Concat(Q))]
    ensures SizeBound(t, A + {root} + Emptied(t, c))
  {
    var X := A + {c} + {root} + (if Concat(Q) == [] then set d | d in s.nodes[c].children else {});
    forall e | e in t.nodes ensures SizeR(t, e, A + {root} + Emptied(t, c)) {
      assert SizeR(s, e, X);
    }
  }

  lemma {:induction false} LeafForest(s: Snap, root: Id, A: set<Id>, d: Id)
    requires InvOff(s, root, A) && d in s.nodes && d !in A && d != root && s.nodes[d].isLeaf
    ensures s.nodes[d].parent in s.nodes && IsForest(s, s.nodes[d].parent, [d], {d})
  {
    assert OffOk(s, d, root, A);
    var p := s.nodes[d].parent;
    assert OffOk(s, p, root, A);
    LinkedChildren(s, p, root, A);
    assert LinkedChild(s, p, s.nodes[p], d);
  }

  lemma {:induction false} GatherFacts(s: Snap, root: Id, A: set<Id>, c: Id, i: nat, Q: seq<seq<Cell>>)
    requires InvOff(s, root, A) && c in s.nodes && !s.nodes[c].isLeaf && KidsAre(s, c, Q) && i < |Q|
    requires forall a :: a in A ==> a in s.nodes && s.nodes[a].rank >= s.nodes[c].rank
    ensures var d := s.nodes[c].children[i];
      && d in s.nodes && s.nodes[d].parent == c && s.nodes[d].rank < s.nodes[c].rank && d !in A && d != root
      && s.nodes[d].cells == Q[i] && Apart(s.nodes[c].children[..i], [d])
  {
    var n := s.nodes[c];
    assert KidIs(s, n.children[i], Q[i]);
    assert OffOk(s, c, root, A);
    LinkedChildren(s, c, root, A);
    assert LinkedChild(s, c, n, n.children[i]);
    assert OffOk(s, n.children[i], root, A);
  }

  lemma {:induction false} GatherStep(s: Snap, root: Id, A: set<Id>, c: Id, i: nat, Q: seq<seq<Cell>>,
                   ls: seq<Id>, V: set<Id>, more: seq<Id>, W: set<Id>)
    requires InvOff(s, root, A) && c in s.nodes && i < |s.nodes[c].children| == |Q|
    requires IsForest(s, c, s.nodes[c].children[..i], V) && IsGathered(s, V, ls, Concat(Q[..i]))
    requires IsForest(s, c, [s.nodes[c].children[i]], W) && IsGathered(s, W, more, Q[i])
    requires Apart(s.nodes[c].children[..i], [s.nodes[c].children[i]])
    ensures IsForest(s, c, s.nodes[c].children[..i + 1], V + W) && IsGathered(s, V + W, ls + more, Concat(Q[..i + 1]))
  {
    hide InvOff, IsForest, IsGathered, Apart;
    var children := s.nodes[c].children;
    GatherBoth(s, root, A, c, children[..i], V, ls, Concat(Q[..i]), [children[i]], W, more, Q[i]);
    ConcatSnoc(Q, i);
    assert children[..i + 1] == children[..i] + [children[i]];
  }

  lemma {:induction false} CollapseFacts(s: Snap, root: Id, A: set<Id>, c: Id, V: set<Id>, ls: seq<Id>, cells: seq<Cell>)
    requires InvOff(s, root, A + {c}) && c in s.nodes && IsForest(s, c, s.nodes[c].children, V)
    requires forall a :: a in A ==> a in s.nodes && s.nodes[a].rank > s.nodes[c].rank
    ensures A + {c} !! V && root !in V && c !in V
  {
    assert OffOk(s, c, root, A + {c});
  }

  lemma {:induction false} CollapseSettled(s: Snap, t: Snap, root: Id, A: set<Id>, c: Id, V: set<Id>, leaf: Id, ls: seq<Id>, cells: seq<Cell>, next: Id)
    requires IsCollapsed(s, t, c, V, leaf, ls, cells) && SizeBound(s, A + {c} + {root}) && |cells| < 25
    requires A + {c} !! V && leaf >= next
    ensures IsSettled(t, root, A, c, [cells]) && Below(s, t, c, A, V, next)
  {
    hide Concat, Sum;
    ConcatOne(cells);
    assert KidIs(t, t.nodes[c].children[0], [cells][0]);
    var X := A + {c} + {root} + (if Concat([cells]) == [] then set d | d in t.nodes[c].children else {});
    forall e | e in t.nodes ensures SizeR(t, e, X) {
      if e != leaf { assert SizeR(s, e, A + {c} + {root}); }
    }
  }

  /** More nodes below c have changed since. */
  lemma {:induction false} FrameGrows(s: Snap, u: Snap, t: Snap, root: Id, A: set<Id>, c: Id, D: set<Id>, E: set<Id>, next: Id, later: Id)
    requires InvOff(s, root, A) && Framed(s, u, c, A, D, next) && c in D && next <= later
    requires Below(u, t, c, A, E, later)
    ensures Framed(s, t, c, A, D + (E * s.nodes.Keys), next)
  {
    var F := D + (E * s.nodes.Keys);
    forall e | e in F ensures e in s.nodes && e !in A && (e == c || s.nodes[e].parent in F) {
      if e !in D {
        assert OffOk(s, e, root, A);
      }
    }
  }

  /** A branch whose caches are about to change joins A. */
  lemma {:induction false} OffMore(s: Snap, root: Id, A: set<Id>, c: Id)
    requires InvOff(s, root, A) && c in s.nodes && !s.nodes[c].isLeaf
    ensures InvOff(s, root, A + {c})
  {
    assert OffOk(s, c, root, A);
    LinkedChildren(s, c, root, A);
    forall e | e in s.nodes ensures OffOk(s, e, root, A + {c}) {
      assert OffOk(s, e, root, A);
    }
  }

  lemma {:induction false} SizeMore(s: Snap, X: set<Id>, Y: set<Id>)
    requires SizeBound(s, X) && X <= Y
    ensures SizeBound(s, Y)
  {
    forall e | e in s.nodes ensures SizeR(s, e, Y) { assert SizeR(s, e, X); }
  }

  lemma {:induction false} KidsOfBranch(s: Snap, root: Id, A: set<Id>, c: Id)
    requires InvOff(s, root, A) && c in s.nodes && c !in A && !s.nodes[c].isLeaf
    ensures KidsAre(s, c, s.nodes[c].kids) && s.nodes[c].cells == Concat(s.nodes[c].kids)
    ensures s.nodes[c].size == |s.nodes[c].cells| && s.nodes[c].height == Sum(s.nodes[c].cells) && s.nodes[c].rank > 0
  {
    var n := s.nodes[c];
    assert OffOk(s, c, root, A);
    forall x | 0 <= x < |n.kids| ensures KidIs(s, n.children[x], n.kids[x]) {
      assert OwnChild(s, c, n, x, NIL);
    }
    assert OwnChild(s, c, n, 0, NIL);
  }

  /** c has n of its k lines still to lose; its size already says so, its height goes along. */
  ghost predicate IsStripped(s: Snap, t: Snap, root: Id, A: set<Id>, c: Id, at: nat, k: nat, n: nat, D: set<Id>, Q: seq<seq<Cell>>, next: Id) {
    && StrippedLinks(t, root, A + {c}) && Framed(s, t, c, A, D, next) && c in D
    && StrippedCount(s, t, c, at, k, n, Q)
  }

  ghost predicate StrippedLinks(t: Snap, root: Id, A: set<Id>) {
    InvOff(t, root, A) && SizeBound(t, A + {root})
  }

  ghost predicate StrippedCount(s: Snap, t: Snap, c: Id, at: nat, k: nat, n: nat, Q: seq<seq<Cell>>) {
    && c in s.nodes && c in t.nodes && n <= k && at + k <= |s.nodes[c].cells|
    && t.nodes[c] == s.nodes[c].(size := |s.nodes[c].cells| - k, height := Sum(Concat(Q)), children := t.nodes[c].children)
    && KidsAre(t, c, Q) && at + n <= |Concat(Q)|
    && Concat(Q) == Cut(s.nodes[c].cells, at, k - n)
  }

  /** Child i has given up its lines, and the children before it all that they had to. */
  lemma {:induction false} StrippedFreed(s: Snap, u: Snap, c: Id, at: nat, k: nat, n: nat, Q: seq<seq<Cell>>, i: nat, rest: nat, rm: nat, lines: map<Id, Line>)
    requires StrippedCount(s, u, c, at, k, n, Q) && i < |Q| && |Concat(Q[..i])| + rest == at && rm <= n
    requires Freed(lines, Q[i], rest, rest + rm) && Freed(lines, s.nodes[c].cells, at, at + k - n)
    ensures Freed(lines, s.nodes[c].cells, at, at + k - n + rm)
  {
    var cells, m := s.nodes[c].cells, k - n;
    forall j | at + m <= j < at + m + rm ensures cells[j].line in lines && lines[cells[j].line].parent == NIL {
      ConcatAt(Q, i, rest + j - at - m);
      assert Cut(cells, at, m)[j - m] == cells[j];
    }
  }

  lemma {:induction false} StrippedStart(s: Snap, t: Snap, root: Id, A: set<Id>, c: Id, at: nat, k: nat, next: Id)
    requires InvOff(s, root, A) && SizeBound(s, A + {root}) && c in s.nodes && c !in A && !s.nodes[c].isLeaf
    requires at + k <= |s.nodes[c].cells| && t.lines == s.lines
    requires t.nodes == s.nodes[c := s.nodes[c].(size := s.nodes[c].size - k)]
    ensures IsStripped(s, t, root, A, c, at, k, k, {c}, s.nodes[c].kids, next)
  {
    KidsOfBranch(s, root, A, c);
    OffMore(s, root, A, c);
    SizeMore(s, A + {root}, A + {c} + {root});
    HeightChangeKeeps(s, t, root, A + {c}, c);
    HeightChangeSizes(s, t, A + {c} + {root}, c);
    forall x | 0 <= x < |s.nodes[c].kids| ensures KidIs(t, t.nodes[c].children[x], s.nodes[c].kids[x]) {
      assert KidIs(s, s.nodes[c].children[x], s.nodes[c].kids[x]);
    }
  }

  lemma {:induction false} StrippedChild(s: Snap, t: Snap, root: Id, A: set<Id>, c: Id, at: nat, k: nat, n: nat, D: set<Id>, Q: seq<seq<Cell>>, next: Id, i: nat)
    requires IsStripped(s, t, root, A, c, at, k, n, D, Q, next) && i < |t.nodes[c].children| && !s.nodes[c].isLeaf && c !in A
    requires forall a :: a in A ==> a in s.nodes && s.nodes[a].rank > s.nodes[c].rank
    ensures var d := t.nodes[c].children[i];
      i < |Q| && d in t.nodes && t.nodes[d].cells == Q[i] && t.nodes[d].parent == c &&
      (if t.nodes[d].isLeaf then |t.nodes[d].lines| else t.nodes[d].size) == |Q[i]|
    ensures forall a :: a in A + {c} ==> a in t.nodes && t.nodes[a].rank >= t.nodes[c].rank
  {
    var d := t.nodes[c].children[i];
    assert KidIs(t, d, Q[i]);
    ChildFacts(t, root, A + {c}, c, d);
  }

  lemma {:induction false} StrippedMore(s: Snap, u: Snap, t: Snap, root: Id, A: set<Id>, c: Id, at: nat, k: nat, n: nat, D: set<Id>, Q: seq<seq<Cell>>, next: Id,
                     i: nat, d: Id, rest: nat, rm: nat, E: set<Id>, later: Id)
    requires InvOff(s, root, A) && IsStripped(s, u, root, A, c, at, k, n, D, Q, next) && !s.nodes[c].isLeaf
    requires IsChildRemoved(u, t, A + {c}, c, i, d, rest, rm, E, later) && later >= next && u.nodes[d].parent == c
    requires StrippedLinks(t, root, A + {c})
    requires i < |Q| && |Concat(Q[..i])| + rest == at && 0 < rm <= n && u.nodes[d].cells == Q[i]
    requires rm == n || rest + rm == |Q[i]|
    ensures IsStripped(s, t, root, A, c, at, k, n - rm, D + (E * s.nodes.Keys), Without(Q, i, rest, rm), next)
    ensures rm < n ==> var R, j := Without(Q, i, rest, rm), if rm == |Q[i]| then i else i + 1;
      j <= |R| && |Concat(R[..j])| == at
    ensures (if rm == |Q[i]| then i else i + 1) <= |Without(Q, i, rest, rm)|
  {
    StrippedCountMore(s, u, t, root, A, c, at, k, n, Q, i, d, rest, rm, E, later);
    FrameGrows(s, u, t, root, A, c, D, E, next, later);
  }

  lemma {:induction false} StrippedCountMore(s: Snap, u: Snap, t: Snap, root: Id, A: set<Id>, c: Id, at: nat, k: nat, n: nat, Q: seq<seq<Cell>>,
                          i: nat, d: Id, rest: nat, rm: nat, E: set<Id>, later: Id)
    requires StrippedCount(s, u, c, at, k, n, Q) && !s.nodes[c].isLeaf && InvOff(u, root, A + {c})
    requires IsChildRemoved(u, t, A + {c}, c, i, d, rest, rm, E, later)
    requires i < |Q| && |Concat(Q[..i])| + rest == at && 0 < rm <= n && u.nodes[d].cells == Q[i]
    requires rm == n || rest + rm == |Q[i]|
    ensures StrippedCount(s, t, c, at, k, n - rm, Without(Q, i, rest, rm))
    ensures rm < n ==> var R, j := Without(Q, i, rest, rm), if rm == |Q[i]| then i else i + 1;
      j <= |R| && |Concat(R[..j])| == at
    ensures (if rm == |Q[i]| then i else i + 1) <= |Without(Q, i, rest, rm)|
  {
    hide Cut, Without;
    KidsWithout(u, t, root, A + {c}, c, i, d, rest, rm, E, later, Q);
    StrippedKids(s.nodes[c].cells, at, k, n, Q, i, rest, rm);
  }

  /** The same for the cells alone. */
  lemma {:induction false} StrippedKids(cells: seq<Cell>, at: nat, k: nat, n: nat, Q: seq<seq<Cell>>, i: nat, rest: nat, rm: nat)
    requires n <= k && at + k <= |cells| && Concat(Q) == Cut(cells, at, k - n) && at + n <= |Concat(Q)|
    requires i < |Q| && |Concat(Q[..i])| + rest == at && 0 < rm <= n && rest + rm <= |Q[i]| && (rm == n || rest + rm == |Q[i]|)
    ensures var R, j := Without(Q, i, rest, rm), if rm == |Q[i]| then i else i + 1;
      && Concat(R) == Cut(cells, at, k - (n - rm)) && at + (n - rm) <= |Concat(R)|
      && Sum(Concat(R)) == Sum(Concat(Q)) - (Sum(Q[i]) - Sum(Cut(Q[i], rest, rm)))
      && j <= |R| && (rm < n ==> |Concat(R[..j])| == at)
  {
    WithoutTotal(Q, i, rest, rm, at);
    CutOnceMore(cells, Concat(Q), Concat(Without(Q, i, rest, rm)), at, k - n, rm);
    if rm < n { WithoutNext(Q, i, rest, rm); }
  }

  /** The loop cannot run out of children before all lines are gone. */
  lemma {:induction false} AllTaken(Q: seq<seq<Cell>>, i: nat, rest: nat, at: nat, n: nat)
    requires i <= |Q| && at + n <= |Concat(Q)| && (n > 0 ==> |Concat(Q[..i])| + rest == at)
    requires n == 0 || i == |Q|
    ensures n == 0
  {
    assert Q[..|Q|] == Q;
  }

  /** At the root nothing but the root and its only leaf may be without lines. */
  lemma {:induction false} RootSizes(s: Snap, root: Id)
    requires InvOff(s, root, {}) && SizeBound(s, {} + {root} + Emptied(s, root))
    requires |s.nodes[root].cells| < 25 ==>
      |s.nodes[root].children| == 1 && s.nodes[root].children[0] in s.nodes && s.nodes[s.nodes[root].children[0]].isLeaf
    ensures Inv(s, root, NIL) && Bounds(s, root, NIL, NIL)
  {
    InvIsOffNowhere(s, root);
    forall c | c in s.nodes ensures SizeOk(s, c, root, NIL, NIL) {
      assert SizeR(s, c, {} + {root} + Emptied(s, root));
      if s.nodes[root].cells == [] {
        assert s.nodes[root].children == [s.nodes[root].children[0]];
      }
    }
  }
}
