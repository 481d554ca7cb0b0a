/** The chunks of the line tree of codemirror.js: leaves hold lines, branches hold chunks, all cache sizes and heights. */
module Chunks {
  import opened Seqs

  // The objects of a document are kept in a store that maps their identities to their fields. The invariant
  // is stated node by node; the ghost field `cells` is the flat list of lines that a node stands for.

  /** The identity of a chunk or of a line object. */
  type Id = nat

  /** A reference that may be null. */
  type Ref = int

  const NIL: Ref := -1

  /** A line with the height that the tree counts for it. */
  datatype Cell = Cell(line: Id, height: int)

  ghost function Sum(cells: seq<Cell>): int {
    SumTo(cells, |cells|)
  }

  /** The heights of the first n cells. */
  ghost function SumTo(cells: seq<Cell>, n: nat): int
    requires n <= |cells|
  {
    if n == 0 then 0 else SumTo(cells, n - 1) + cells[n - 1].height
  }

  lemma {:induction false} SumToPrefix(a: seq<Cell>, b: seq<Cell>, n: nat)
    requires n <= |a| && n <= |b| && forall i :: 0 <= i < n ==> a[i] == b[i]
    ensures SumTo(a, n) == SumTo(b, n)
  {
    if n > 0 { SumToPrefix(a, b, n - 1); }
  }

  lemma {:induction false} SumAppendTo(a: seq<Cell>, b: seq<Cell>, n: nat)
    requires n <= |b|
    ensures SumTo(a + b, |a| + n) == Sum(a) + SumTo(b, n)
    decreases n
  {
    if n == 0 {
      SumToPrefix(a + b, a, |a|);
    } else {
      SumAppendTo(a, b, n - 1);
    }
  }

  lemma {:induction false} SumAppend(a: seq<Cell>, b: seq<Cell>)
    ensures Sum(a + b) == Sum(a) + Sum(b)
  {
    SumAppendTo(a, b, |b|);
  }

  lemma {:induction false} SumSplice(s: seq<Cell>, at: nat, x: seq<Cell>)
    requires at <= |s|
    ensures Sum(Splice(s, at, x)) == Sum(s) + Sum(x)
  {
    assert s == s[..at] + s[at..];
    SumAppend(s[..at], s[at..]);
    SumAppend(s[..at] + x, s[at..]);
    SumAppend(s[..at], x);
  }

  // ------------------------------------------------------------------ snapshots

  /** A line of text; `height` is in pixels. */
  datatype Line = Line(text: string, height: int, parent: Ref)

  /**
   * LeafChunk and BranchChunk: `lines` is for leaves, `children` and `size` for branches. The
   * ghost fields: the lines below the node, the same child by child, and a level above all
   * descendants.
   */
  datatype Chunk = Chunk(isLeaf: bool, lines: seq<Id>, children: seq<Id>, size: int, height: int, parent: Ref,
                       ghost cells: seq<Cell>, ghost kids: seq<seq<Cell>>, ghost rank: nat)

  /** The objects of one document. */
  datatype Snap = Snap(nodes: map<Id, Chunk>, lines: map<Id, Line>)

  /** The lines of a leaf are its own, and it counts their present heights. */
  ghost predicate LeafOk(s: Snap, c: Id, n: Chunk) {
    && n.children == [] && n.kids == [] && n.size == 0
    && |n.cells| == |n.lines| && NoDup(n.lines)
    && forall i :: 0 <= i < |n.lines| ==> OwnLine(s, c, n.lines[i], n.cells[i])
  }

  ghost predicate OwnLine(s: Snap, c: Id, l: Id, cell: Cell) {
    l in s.lines && s.lines[l].parent == c && cell == Cell(l, s.lines[l].height)
  }

  /** Links of a branch; the entry of `kids` for child x may be ahead of x itself. */
  ghost predicate BranchOk(s: Snap, c: Id, n: Chunk, x: Ref) {
    && n.lines == [] && n.children != [] && |n.kids| == |n.children| && NoDup(n.children)
    && (forall i :: 0 <= i < |n.children| ==> OwnChild(s, c, n, i, x))
    && n.cells == Concat(n.kids) && n.size == |n.cells|
  }

  ghost predicate OwnChild(s: Snap, c: Id, n: Chunk, i: nat, x: Ref)
    requires i < |n.children| == |n.kids|
  {
    var d := n.children[i];
    && d in s.nodes && s.nodes[d].parent == c && s.nodes[d].rank < n.rank
    && (d != x ==> n.kids[i] == s.nodes[d].cells)
  }

  ghost predicate ParentOk(s: Snap, c: Id, n: Chunk, root: Id)
    requires root in s.nodes
  {
    && (c == root || n.rank < s.nodes[root].rank)
    && (n.parent == NIL <==> c == root)
    && (n.parent != NIL ==>
          n.parent in s.nodes && !s.nodes[n.parent].isLeaf && c in s.nodes[n.parent].children)
  }

  ghost predicate NodeOk(s: Snap, c: Id, root: Id, x: Ref)
    requires c in s.nodes && root in s.nodes
  {
    var n := s.nodes[c];
    && ParentOk(s, c, n, root) && n.height == Sum(n.cells)
    && (if n.isLeaf then LeafOk(s, c, n) else BranchOk(s, c, n, x))
  }

  /** Every node is consistent; only the entry of x in its parent may be ahead of x. */
  ghost predicate Inv(s: Snap, root: Id, x: Ref) {
    && root in s.nodes && !s.nodes[root].isLeaf
    && forall c {:trigger NodeOk(s, c, root, x)} :: c in s.nodes ==> NodeOk(s, c, root, x)
  }

  /** The parent of c already counts `k` for it; a root has no parent. */
  ghost predicate Ahead(s: Snap, c: Id, k: seq<Cell>)
    requires c in s.nodes
  {
    var p := s.nodes[c].parent;
    p != NIL && p in s.nodes ==>
      var n := s.nodes[p];
      |n.kids| == |n.children| && forall i :: 0 <= i < |n.children| && n.children[i] == c ==> n.kids[i] == k
  }

  /** Lines that no leaf holds yet. */
  ghost predicate Loose(s: Snap, lines: seq<Id>) {
    NoDup(lines) && forall i :: 0 <= i < |lines| ==> lines[i] in s.lines && s.lines[lines[i]].parent == NIL
  }

  ghost function Cells(s: Snap, lines: seq<Id>): (r: seq<Cell>)
    requires forall i :: 0 <= i < |lines| ==> lines[i] in s.lines
    ensures |r| == |lines|
  {
    seq(|lines|, i requires 0 <= i < |lines| => Cell(lines[i], s.lines[lines[i]].height))
  }

  /** The lines now belong to c. */
  ghost function Adopted(lines: map<Id, Line>, moved: seq<Id>, c: Id): map<Id, Line> {
    map l | l in lines :: if l in moved then lines[l].(parent := c) else lines[l]
  }

  lemma {:induction false} ChildrenAreNodes(s: Snap, p: Id, x: Ref)
    requires p in s.nodes && BranchOk(s, p, s.nodes[p], x)
    ensures forall d :: d in s.nodes[p].children ==> d in s.nodes && s.nodes[d].parent == p && s.nodes[d].rank < s.nodes[p].rank
  {
    var n := s.nodes[p];
    forall d | d in n.children ensures d in s.nodes && s.nodes[d].parent == p && s.nodes[d].rank < n.rank {
      var i :| 0 <= i < |n.children| && n.children[i] == d;
      assert OwnChild(s, p, n, i, x);
    }
  }

  lemma {:induction false} NotOwnParent(s: Snap, c: Id, root: Id, x: Ref)
    requires c in s.nodes && root in s.nodes && NodeOk(s, c, root, x)
    ensures s.nodes[c].parent != c
  {
    if s.nodes[c].parent == c {
      ChildrenAreNodes(s, c, x);
      assert false;
    }
  }

  lemma {:induction false} LeafOwns(s: Snap, d: Id)
    requires d in s.nodes && LeafOk(s, d, s.nodes[d])
    ensures forall l :: l in s.nodes[d].lines ==> l in s.lines && s.lines[l].parent == d
  {
    var n := s.nodes[d];
    forall l | l in n.lines ensures l in s.lines && s.lines[l].parent == d {
      var i :| 0 <= i < |n.lines| && n.lines[i] == l;
      assert OwnLine(s, d, n.lines[i], n.cells[i]);
    }
  }

  /** The part that element n of the whole comes from. */
  lemma {:induction false} PartOf<T>(parts: seq<seq<T>>, n: nat) returns (i: nat, k: nat)
    requires n < |Concat(parts)|
    ensures i < |parts| && k < |parts[i]| && n == |Concat(parts[..i])| + k && parts[i][k] == Concat(parts)[n]
    decreases |parts|
  {
    if n < |parts[0]| {
      i, k := 0, n;
    } else {
      i, k := PartOf(parts[1..], n - |parts[0]|);
      i := i + 1;
      assert parts[..i][1..] == parts[1..][..i - 1];
    }
  }

  /** A line counted by some node is held by the leaf that it names as its parent. */
  lemma {:induction false} HolderOf(s: Snap, root: Id, c: Id, n: nat)
    requires Inv(s, root, NIL) && c in s.nodes && n < |s.nodes[c].cells|
    ensures var l := s.nodes[c].cells[n].line;
      && l in s.lines && s.lines[l].parent in s.nodes && s.nodes[s.lines[l].parent].isLeaf
      && l in s.nodes[s.lines[l].parent].lines && s.nodes[c].cells[n].height == s.lines[l].height
    decreases s.nodes[c].rank
  {
    assert NodeOk(s, c, root, NIL);
    var m := s.nodes[c];
    if m.isLeaf {
      assert OwnLine(s, c, m.lines[n], m.cells[n]);
    } else {
      var i, k := PartOf(m.kids, n);
      assert OwnChild(s, c, m, i, NIL);
      HolderOf(s, root, m.children[i], k);
    }
  }
}
