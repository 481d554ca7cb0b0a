/** From line numbers and heights to lines of the tree and back. */
module LineLookup {
  import opened Seqs
  import opened Chunks
  import opened ChunkInsert
  import opened ChunkRemove
  import opened LineTree

  datatype Lookup = Found(line: Id) | NoSuchLine

  // ------------------------------------------------------------------ concatenations

  lemma {:induction false} SumInPart(parts: seq<seq<Cell>>, i: nat, k: nat)
    requires i < |parts| && k <= |parts[i]|
    ensures |Concat(parts[..i])| + k <= |Concat(parts)|
    ensures SumTo(Concat(parts), |Concat(parts[..i])| + k) == Sum(Concat(parts[..i])) + SumTo(parts[i], k)
  {
    var a, z := Concat(parts[..i]), Concat(parts[i + 1..]);
    ConcatAround(parts, i);
    SumToPrefix(a + parts[i] + z, a + parts[i], |a| + k);
    SumAppendTo(a, parts[i], k);
  }

  // ------------------------------------------------------------------ where lines are

  /** The lines below d, and the nodes that hold them. */
  lemma {:induction false} LinesBelow(s: Snap, root: Id, d: Id) returns (ls: seq<Id>, V: set<Id>)
    requires InvOff(s, root, {}) && d in s.nodes && d != root
    ensures s.nodes[d].parent in s.nodes && IsForest(s, s.nodes[d].parent, [d], V)
    ensures IsGathered(s, V, ls, s.nodes[d].cells)
    decreases s.nodes[d].rank, 1, 0
  {
    assert OffOk(s, d, root, {});
    if s.nodes[d].isLeaf {
      ls, V := s.nodes[d].lines, {d};
      LeafGathered(s, d);
      LeafForest(s, root, {}, d);
    } else {
      KidsOfBranch(s, root, {}, d);
      ls, V := LinesBelowChildren(s, root, d, |s.nodes[d].children|);
      assert s.nodes[d].children[..|s.nodes[d].children|] == s.nodes[d].children;
      assert s.nodes[d].kids[..|s.nodes[d].kids|] == s.nodes[d].kids;
      ForestWithTop(s, root, {}, d, V);
      MoreGathered(s, V, V + {d}, ls, s.nodes[d].cells);
      V := V + {d};
    }
  }

  lemma {:induction false} LinesBelowChildren(s: Snap, root: Id, c: Id, i: nat) returns (ls: seq<Id>, V: set<Id>)
    requires InvOff(s, root, {}) && c in s.nodes && !s.nodes[c].isLeaf && i <= |s.nodes[c].children| == |s.nodes[c].kids|
    ensures IsForest(s, c, s.nodes[c].children[..i], V) && IsGathered(s, V, ls, Concat(s.nodes[c].kids[..i]))
    decreases s.nodes[c].rank, 0, i
  {
    ls, V := [], {};
    if i > 0 {
      ls, V := LinesBelowChildren(s, root, c, i - 1);
      KidsOfBranch(s, root, {}, c);
      GatherFacts(s, root, {}, c, i - 1, s.nodes[c].kids);
      var more, W := LinesBelow(s, root, s.nodes[c].children[i - 1]);
      GatherStep(s, root, {}, c, i - 1, s.nodes[c].kids, ls, V, more, W);
      ls, V := ls + more, V + W;
    }
  }

  /** No line is in a document twice. */
  lemma {:induction false} FlatNoDup(s: Snap, root: Id)
    requires Inv(s, root, NIL)
    ensures forall i, j :: 0 <= i < j < |s.nodes[root].cells| ==> s.nodes[root].cells[i].line != s.nodes[root].cells[j].line
  {
    InvIsOffNowhere(s, root);
    var n := s.nodes[root];
    assert NodeOk(s, root, root, NIL);
    var ls, V := LinesBelowChildren(s, root, root, |n.children|);
    assert n.kids[..|n.kids|] == n.kids;
    forall i, j | 0 <= i < j < |n.cells| ensures n.cells[i].line != n.cells[j].line {
      assert HeldIn(s, V, ls[i], n.cells[i]) && HeldIn(s, V, ls[j], n.cells[j]);
    }
  }

  /** Line l is the n-th of the document. */
  ghost predicate IsAt(cells: seq<Cell>, n: nat, l: Id) {
    n < |cells| && cells[n].line == l
  }

  // ------------------------------------------------------------------ getLine

  /** The child of c whose lines include line n of c. */
  method ChildWith(doc: Document, c: Id, n: nat) returns (d: Id, rest: nat, ghost i: nat)
    requires doc.Valid() && c in doc.nodes && !doc.nodes[c].isLeaf && n < |doc.nodes[c].cells|
    ensures i < |doc.nodes[c].children| && doc.nodes[c].children[i] == d && d in doc.nodes
    ensures rest < |doc.nodes[d].cells| && doc.nodes[d].cells[rest] == doc.nodes[c].cells[n]
    ensures doc.nodes[d].rank < doc.nodes[c].rank
  {
    ghost var s := doc.Shot();
    assert NodeOk(s, c, doc.root, NIL);
    ghost var kids := doc.nodes[c].kids;
    ChildrenCounted(s, doc.root, NIL, c);
    i, rest := 0, n;
    var j := 0;
    assert Counted(s, doc.nodes[c].children[0], kids[0]);
    while rest >= doc.ChunkSize(doc.nodes[c].children[j])
      invariant j == i < |kids| && |Concat(kids[..i])| + rest == n
      invariant Counted(s, doc.nodes[c].children[i], kids[i])
      decreases |kids| - i
    {
      ConcatSnoc(kids, i);
      ConcatAround(kids, i);
      rest := rest - doc.ChunkSize(doc.nodes[c].children[j]);
      i, j := i + 1, j + 1;
      assert Counted(s, doc.nodes[c].children[i], kids[i]);
    }
    d := doc.nodes[c].children[j];
    ConcatAt(kids, i, rest);
    assert OwnChild(s, c, doc.nodes[c], i, NIL);
  }

  /** getLine, for a document that starts at line 0: it fails exactly when there is no such line. */
  method GetLine(doc: Document, n: int) returns (r: Lookup)
    requires doc.Valid()
    ensures r.Found? <==> 0 <= n < |doc.Flat()|
    ensures r.Found? ==> IsAt(doc.Flat(), n, r.line)
  {
    ghost var s := doc.Shot();
    assert NodeOk(s, doc.root, doc.root, NIL);
    if n < 0 || n >= doc.ChunkSize(doc.root) {
      return NoSuchLine;
    }
    var c, rest: nat := doc.root, n;
    while !doc.nodes[c].isLeaf
      invariant c in doc.nodes && rest < |doc.nodes[c].cells| && doc.nodes[c].cells[rest] == doc.Flat()[n]
      decreases doc.nodes[c].rank
    {
      ghost var i;
      c, rest, i := ChildWith(doc, c, rest);
    }
    assert NodeOk(s, c, doc.root, NIL);
    assert OwnLine(s, c, doc.nodes[c].lines[rest], doc.nodes[c].cells[rest]);
    r := Found(doc.nodes[c].lines[rest]);
  }

  // ------------------------------------------------------------------ lineNo and heightAtLine

  /** The parent of a node other than the root lists it. */
  lemma {:induction false} ParentLists(s: Snap, root: Id, c: Id)
    requires Inv(s, root, NIL) && c in s.nodes && s.nodes[c].parent != NIL
    ensures var p := s.nodes[c].parent;
      && p in s.nodes && !s.nodes[p].isLeaf && c in s.nodes[p].children && s.nodes[c].rank < s.nodes[p].rank
      && s.nodes[p].rank <= s.nodes[root].rank
  {
    RankBelowRoot(s, root, c);
    assert NodeOk(s, c, root, NIL);
    RankBelowRoot(s, root, s.nodes[c].parent);
  }

  lemma {:induction false} KidEntry(s: Snap, root: Id, p: Id, i: nat)
    requires Inv(s, root, NIL) && p in s.nodes && !s.nodes[p].isLeaf && i < |s.nodes[p].children|
    ensures var n := s.nodes[p];
      && |n.kids| == |n.children| && n.cells == Concat(n.kids) && n.children[i] in s.nodes && n.kids[i] == s.nodes[n.children[i]].cells
  {
    assert NodeOk(s, p, root, NIL) && OwnChild(s, p, s.nodes[p], i, NIL);
  }

  /** How many lines the children of p before c have. */
  method LinesBefore(doc: Document, p: Id, c: Id) returns (size: nat, ghost i: nat)
    requires doc.Valid() && p in doc.nodes && !doc.nodes[p].isLeaf && c in doc.nodes[p].children
    ensures i < |doc.nodes[p].children| == |doc.nodes[p].kids| && doc.nodes[p].children[i] == c
    ensures size == |Concat(doc.nodes[p].kids[..i])|
  {
    ghost var s, kids := doc.Shot(), doc.nodes[p].kids;
    ChildrenCounted(s, doc.root, NIL, p);
    var children := doc.nodes[p].children;
    size, i := 0, 0;
    var j := 0;
    while children[j] != c
      invariant j == i < |children| && c in children[i..] && size == |Concat(kids[..i])|
      decreases |children| - i
    {
      assert Counted(s, children[i], kids[i]);
      assert children[i..] == [children[i]] + children[i + 1..];
      ConcatSnoc(kids, i);
      size := size + doc.ChunkSize(children[j]);
      i, j := i + 1, j + 1;
    }
  }

  /**
   * lineNo, for a line of this document or of none: null exactly for a line that is in no
   * document, and otherwise the place at which getLine finds it.
   */
  method LineNo(doc: Document, l: Id) returns (r: Ref)
    requires doc.Valid() && l in doc.lines
    requires doc.lines[l].parent == NIL || exists n :: IsAt(doc.Flat(), n, l)
    ensures r == NIL <==> doc.lines[l].parent == NIL
    ensures r != NIL ==> r >= 0 && IsAt(doc.Flat(), r, l)
  {
    if doc.lines[l].parent == NIL { return NIL; }
    ghost var s := doc.Shot();
    ghost var n :| IsAt(doc.Flat(), n, l);
    HolderOf(s, doc.root, doc.root, n);
    var cur: Id := doc.lines[l].parent;
    assert NodeOk(s, cur, doc.root, NIL);
    var no: nat := doc.IndexOf(doc.nodes[cur].lines, l);
    assert OwnLine(s, cur, doc.nodes[cur].lines[no], doc.nodes[cur].cells[no]);
    while doc.nodes[cur].parent != NIL
      invariant cur in doc.nodes && IsAt(doc.nodes[cur].cells, no, l)
      invariant doc.nodes[cur].rank <= doc.nodes[doc.root].rank
      decreases doc.nodes[doc.root].rank - doc.nodes[cur].rank
    {
      ParentLists(s, doc.root, cur);
      var chunk: Id := doc.nodes[cur].parent;
      var before;
      ghost var i;
      before, i := LinesBefore(doc, chunk, cur);
      KidEntry(s, doc.root, chunk, i);
      ConcatAt(doc.nodes[chunk].kids, i, no);
      no := before + no;
      cur := chunk;
    }
    assert NodeOk(s, cur, doc.root, NIL);
    r := no;
  }

  /** lineNo is the inverse of getLine. */
  method LineNoOfLine(doc: Document, n: nat) returns (r: Ref)
    requires doc.Valid() && n < |doc.Flat()|
    ensures r == n
  {
    var found := GetLine(doc, n);
    HolderOf(doc.Shot(), doc.root, doc.root, n);
    r := LineNo(doc, found.line);
    FlatNoDup(doc.Shot(), doc.root);
  }

  /** The height of the children of p before c. */
  method HeightBefore(doc: Document, p: Id, c: Id) returns (height: int, ghost i: nat)
    requires doc.Valid() && p in doc.nodes && !doc.nodes[p].isLeaf && c in doc.nodes[p].children
    ensures i < |doc.nodes[p].children| == |doc.nodes[p].kids| && doc.nodes[p].children[i] == c
    ensures height == Sum(Concat(doc.nodes[p].kids[..i]))
  {
    ghost var s, kids := doc.Shot(), doc.nodes[p].kids;
    ChildrenCounted(s, doc.root, NIL, p);
    var children := doc.nodes[p].children;
    height, i := 0, 0;
    var j := 0;
    while children[j] != c
      invariant j == i < |children| && c in children[i..] && height == Sum(Concat(kids[..i]))
      decreases |children| - i
    {
      assert Counted(s, children[i], kids[i]);
      assert children[i..] == [children[i]] + children[i + 1..];
      ConcatSnoc(kids, i);
      SumAppend(Concat(kids[..i]), kids[i]);
      height := height + doc.nodes[children[j]].height;
      i, j := i + 1, j + 1;
    }
  }

  /** The first loop of heightAtLine. */
  method HeightInLeaf(doc: Document, c: Id, l: Id) returns (h: int, ghost no: nat)
    requires c in doc.nodes && doc.nodes[c].isLeaf && LeafOk(doc.Shot(), c, doc.nodes[c]) && l in doc.nodes[c].lines
    ensures IsAt(doc.nodes[c].cells, no, l) && h == SumTo(doc.nodes[c].cells, no)
  {
    var lines := doc.nodes[c].lines;
    ghost var cells := doc.nodes[c].cells;
    h, no := 0, 0;
    var i := 0;
    while lines[i] != l
      invariant i == no < |lines| && l in lines[i..] && h == SumTo(cells, no)
      decreases |lines| - no
    {
      assert OwnLine(doc.Shot(), c, lines[i], cells[i]);
      assert lines[i..] == [lines[i]] + lines[i + 1..];
      h := h + doc.lines[lines[i]].height;
      i, no := i + 1, no + 1;
    }
    assert OwnLine(doc.Shot(), c, lines[i], cells[i]);
  }

  lemma {:induction false} AtOnce(s: Snap, root: Id, n: nat, m: nat, l: Id)
    requires Inv(s, root, NIL) && IsAt(s.nodes[root].cells, n, l) && IsAt(s.nodes[root].cells, m, l)
    ensures n == m
  {
    FlatNoDup(s, root);
  }

  /** heightAtLine, without collapsed spans: the heights of all lines before l. */
  method HeightAtLine(doc: Document, l: Id) returns (h: int)
    requires doc.Valid() && exists n :: IsAt(doc.Flat(), n, l)
    ensures forall n :: IsAt(doc.Flat(), n, l) ==> h == SumTo(doc.Flat(), n)
  {
    ghost var s := doc.Shot();
    ghost var n :| IsAt(doc.Flat(), n, l);
    HolderOf(s, doc.root, doc.root, n);
    var chunk: Id := doc.lines[l].parent;
    assert NodeOk(s, chunk, doc.root, NIL);
    ghost var no: nat;
    h, no := HeightInLeaf(doc, chunk, l);
    while doc.nodes[chunk].parent != NIL
      invariant chunk in doc.nodes && IsAt(doc.nodes[chunk].cells, no, l) && h == SumTo(doc.nodes[chunk].cells, no)
      invariant doc.nodes[chunk].rank <= doc.nodes[doc.root].rank
      decreases doc.nodes[doc.root].rank - doc.nodes[chunk].rank
    {
      ParentLists(s, doc.root, chunk);
      var p: Id := doc.nodes[chunk].parent;
      var before;
      ghost var i;
      before, i := HeightBefore(doc, p, chunk);
      KidEntry(s, doc.root, p, i);
      ConcatAt(doc.nodes[p].kids, i, no);
      SumInPart(doc.nodes[p].kids, i, no);
      h := before + h;
      no := |Concat(doc.nodes[p].kids[..i])| + no;
      chunk := p;
    }
    assert NodeOk(s, chunk, doc.root, NIL);
    forall m | IsAt(doc.Flat(), m, l) ensures h == SumTo(doc.Flat(), m) {
      AtOnce(s, doc.root, no, m, l);
    }
  }

  // ------------------------------------------------------------------ lineAtHeight

  /** The cells of a node, at position n of the document. */
  ghost predicate IsPart(flat: seq<Cell>, n: nat, cells: seq<Cell>) {
    n + |cells| <= |flat| && flat[n..n + |cells|] == cells
  }

  lemma {:induction false} PartSum(flat: seq<Cell>, n: nat, cells: seq<Cell>, k: nat)
    requires IsPart(flat, n, cells) && k <= |cells|
    ensures SumTo(flat, n + k) == SumTo(flat, n) + SumTo(cells, k)
  {
    SumToPrefix(flat, flat[..n] + cells, n + k);
    SumToPrefix(flat, flat[..n], n);
    SumAppendTo(flat[..n], cells, k);
  }

  lemma {:induction false} PartOfPart(flat: seq<Cell>, n: nat, kids: seq<seq<Cell>>, i: nat)
    requires IsPart(flat, n, Concat(kids)) && i < |kids|
    ensures IsPart(flat, n + |Concat(kids[..i])|, kids[i])
  {
    ConcatAround(kids, i);
    var W, a, m := Concat(kids), |Concat(kids[..i])|, |kids[i]|;
    assert W[a..a + m] == kids[i];
    SliceOfSlice(flat, n, n + |W|, n + a, n + a + m);
  }

  /** Going down to child i of c. */
  lemma {:induction false} PartBelow(s: Snap, root: Id, flat: seq<Cell>, n: nat, c: Id, i: nat)
    requires Inv(s, root, NIL) && c in s.nodes && !s.nodes[c].isLeaf && i < |s.nodes[c].children|
    requires IsPart(flat, n, s.nodes[c].cells)
    ensures var m := s.nodes[c];
      && |m.kids| == |m.children| && m.children[i] in s.nodes && s.nodes[m.children[i]].rank < m.rank
      && s.nodes[m.children[i]].cells == m.kids[i]
      && IsPart(flat, n + |Concat(m.kids[..i])|, m.kids[i])
      && SumTo(flat, n + |Concat(m.kids[..i])|) == SumTo(flat, n) + Sum(Concat(m.kids[..i]))
  {
    KidEntry(s, root, c, i);
    ChildRank(s, root, NIL, c, i);
    PartOfPart(flat, n, s.nodes[c].kids, i);
    SumInPart(s.nodes[c].kids, i, 0);
    PartSum(flat, n, s.nodes[c].cells, |Concat(s.nodes[c].kids[..i])|);
  }

  /** The loop over the children: the first that reaches below h, or none. */
  method ChildAtHeight(doc: Document, c: Id, h: int) returns (found: bool, d: Id, rest: int, before: nat, ghost i: nat)
    requires doc.Valid() && c in doc.nodes && !doc.nodes[c].isLeaf
    ensures i <= |doc.nodes[c].kids| == |doc.nodes[c].children| && before == |Concat(doc.nodes[c].kids[..i])|
    ensures rest == h - Sum(Concat(doc.nodes[c].kids[..i])) && (i > 0 ==> rest >= 0)
    ensures found <==> i < |doc.nodes[c].kids|
    ensures found ==> doc.nodes[c].children[i] == d && d in doc.nodes && rest < Sum(doc.nodes[c].kids[i])
  {
    ghost var s, kids := doc.Shot(), doc.nodes[c].kids;
    ChildrenCounted(s, doc.root, NIL, c);
    var children := doc.nodes[c].children;
    rest, before, i, d := h, 0, 0, c;
    for j := 0 to |children|
      invariant i == j && before == |Concat(kids[..i])| && rest == h - Sum(Concat(kids[..i])) && (i > 0 ==> rest >= 0)
    {
      assert Counted(s, children[j], kids[j]);
      if rest < doc.nodes[children[j]].height {
        return true, children[j], rest, before, i;
      }
      ConcatSnoc(kids, i);
      SumAppend(Concat(kids[..i]), kids[i]);
      rest := rest - doc.nodes[children[j]].height;
      before := before + doc.ChunkSize(children[j]);
      i := i + 1;
    }
    found := false;
  }

  /** The loop over the lines of a leaf. */
  method LineInLeaf(doc: Document, c: Id, h: int) returns (i: nat)
    requires c in doc.nodes && doc.nodes[c].isLeaf && LeafOk(doc.Shot(), c, doc.nodes[c])
    requires h < Sum(doc.nodes[c].cells)
    ensures i <= |doc.nodes[c].cells| && (i > 0 ==> SumTo(doc.nodes[c].cells, i) <= h)
    ensures if i < |doc.nodes[c].cells| then h < SumTo(doc.nodes[c].cells, i + 1) else i == 0
  {
    var lines, rest := doc.nodes[c].lines, h;
    ghost var cells := doc.nodes[c].cells;
    i := 0;
    while i < |lines|
      invariant i <= |lines| && rest == h - SumTo(cells, i) && (i > 0 ==> rest >= 0)
    {
      assert OwnLine(doc.Shot(), c, lines[i], cells[i]);
      if rest < doc.lines[lines[i]].height { return; }
      rest := rest - doc.lines[lines[i]].height;
      i := i + 1;
    }
  }

  /** One level further down, or past the end of this node. */
  method Descend(doc: Document, c: Id, n: nat, h: int, ghost flat: seq<Cell>) returns (found: bool, d: Id, n': nat, rest: int)
    requires doc.Valid() && c in doc.nodes && !doc.nodes[c].isLeaf && IsPart(flat, n, doc.nodes[c].cells)
    ensures (rest >= 0 || (found && n' == n && rest == h)) && n' <= |flat| && SumTo(flat, n') == SumTo(flat, n) + h - rest
    ensures found ==> d in doc.nodes && doc.nodes[d].rank < doc.nodes[c].rank && IsPart(flat, n', doc.nodes[d].cells)
    ensures found ==> rest < Sum(doc.nodes[d].cells)
    ensures !found ==> rest == h - Sum(doc.nodes[c].cells) && n' == n + |doc.nodes[c].cells|
  {
    var before;
    ghost var i;
    found, d, rest, before, i := ChildAtHeight(doc, c, h);
    n' := n + before;
    assert NodeOk(doc.Shot(), c, doc.root, NIL);
    if found {
      PartBelow(doc.Shot(), doc.root, flat, n, c, i);
    } else {
      assert doc.nodes[c].kids[..i] == doc.nodes[c].kids;
      PartSum(flat, n, doc.nodes[c].cells, before);
    }
  }

  /** Only a document without lines has a leaf without lines. */
  lemma {:induction false} EmptyLeaf(s: Snap, root: Id, c: Id)
    requires Inv(s, root, NIL) && Bounds(s, root, NIL, NIL) && c in s.nodes && s.nodes[c].isLeaf && s.nodes[c].cells == []
    ensures s.nodes[root].cells == []
  {
    assert SizeOk(s, c, root, NIL, NIL);
    assert NodeOk(s, root, root, NIL);
    assert OwnChild(s, root, s.nodes[root], 0, NIL);
    ConcatOne(s.nodes[root].kids[0]);
    assert s.nodes[root].kids == [s.nodes[root].kids[0]];
  }

  /**
   * lineAtHeight: the line that covers height h, or the number of lines if h is below them all. A
   * negative height is above all lines and gives the first one.
   */
  method LineAtHeight(doc: Document, h: int) returns (n: nat)
    requires doc.Valid()
    ensures n <= |doc.Flat()| && (n > 0 ==> SumTo(doc.Flat(), n) <= h)
    ensures n < |doc.Flat()| ==> h < SumTo(doc.Flat(), n + 1)
  {
    ghost var flat := doc.Flat();
    var chunk, rest := doc.root, h;
    n := 0;
    assert NodeOk(doc.Shot(), doc.root, doc.root, NIL);
    while !doc.nodes[chunk].isLeaf
      invariant chunk in doc.nodes && IsPart(flat, n, doc.nodes[chunk].cells)
      invariant rest == h - SumTo(flat, n) && (n > 0 ==> rest >= 0)
      invariant chunk == doc.root || rest < Sum(doc.nodes[chunk].cells)
      decreases doc.nodes[chunk].rank
    {
      var found, d;
      found, d, n, rest := Descend(doc, chunk, n, rest, flat);
      if !found { return; }
      chunk := d;
    }
    assert NodeOk(doc.Shot(), chunk, doc.root, NIL);
    var i := LineInLeaf(doc, chunk, rest);
    if doc.nodes[chunk].lines == [] {
      EmptyLeaf(doc.Shot(), doc.root, chunk);
    } else {
      PartSum(flat, n, doc.nodes[chunk].cells, i);
      PartSum(flat, n, doc.nodes[chunk].cells, i + 1);
    }
    n := n + i;
  }

  lemma {:induction false} HeightsGrow(cells: seq<Cell>, m: nat, n: nat)
    requires m <= n <= |cells| && forall i :: 0 <= i < |cells| ==> cells[i].height >= 0
    ensures SumTo(cells, m) <= SumTo(cells, n)
    decreases n
  {
    if m < n { HeightsGrow(cells, m, n - 1); }
  }

  /** Without negative heights there is one such line only. */
  lemma {:induction false} OneLineAtHeight(cells: seq<Cell>, h: int, m: nat, n: nat)
    requires m <= |cells| && n <= |cells| && forall i :: 0 <= i < |cells| ==> cells[i].height >= 0
    requires (m > 0 ==> SumTo(cells, m) <= h) && (m < |cells| ==> h < SumTo(cells, m + 1))
    requires (n > 0 ==> SumTo(cells, n) <= h) && (n < |cells| ==> h < SumTo(cells, n + 1))
    ensures m == n
  {
    if m < n { HeightsGrow(cells, m + 1, n); }
    if n < m { HeightsGrow(cells, n + 1, m); }
  }

  // ------------------------------------------------------------------ updateLineHeight

  lemma {:induction false} SumUpdate(cells: seq<Cell>, no: nat, cell: Cell)
    requires no < |cells|
    ensures Sum(cells[no := cell]) == Sum(cells) - cells[no].height + cell.height
  {
    var t := cells[no := cell];
    SumSlices(cells, 0, no, |cells|);
    SumSlices(cells, no, no + 1, |cells|);
    SumSlices(t, 0, no, |cells|);
    SumSlices(t, no, no + 1, |cells|);
    assert cells[0..|cells|] == cells && t[0..|cells|] == t && t[0..no] == cells[0..no];
    assert t[no + 1..|cells|] == cells[no + 1..|cells|] && t[no..no + 1] == [cell] && cells[no..no + 1] == [cells[no]];
    assert Sum([cell]) == SumTo([cell], 0) + cell.height && Sum([cells[no]]) == SumTo([cells[no]], 0) + cells[no].height;
  }

  /** Changing an element of one part is changing it in the whole. */
  lemma {:induction false} ConcatPut<T>(parts: seq<seq<T>>, i: nat, k: nat, x: T)
    requires i < |parts| && k < |parts[i]|
    ensures |Concat(parts[..i])| + k < |Concat(parts)|
    ensures Concat(parts[i := parts[i][k := x]]) == Concat(parts)[|Concat(parts[..i])| + k := x]
  {
    ConcatAround(parts, i);
    ConcatUpdate(parts, i, parts[i][k := x]);
  }

  /** The line and its leaf have the new height, the parent of the leaf does not know it yet. */
  ghost predicate IsResized(s: Snap, t: Snap, c: Id, no: nat, l: Id, height: int) {
    && l in s.lines && c in s.nodes && IsAt(s.nodes[c].cells, no, l)
    && t.lines == s.lines[l := s.lines[l].(height := height)]
    && t.nodes == s.nodes[c := s.nodes[c].(height := s.nodes[c].height + (height - s.lines[l].height),
                                           cells := s.nodes[c].cells[no := Cell(l, height)])]
  }

  lemma {:induction false} ResizeKeeps(s: Snap, t: Snap, root: Id, c: Id, no: nat, l: Id, height: int)
    requires Inv(s, root, NIL) && IsResized(s, t, c, no, l, height) && s.nodes[c].isLeaf
    ensures Inv(t, root, c)
  {
    assert NodeOk(s, c, root, NIL);
    var n := s.nodes[c];
    assert OwnLine(s, c, n.lines[no], n.cells[no]);
    SumUpdate(n.cells, no, Cell(l, height));
    forall i | 0 <= i < |n.lines| ensures OwnLine(t, c, n.lines[i], t.nodes[c].cells[i]) {
      assert OwnLine(s, c, n.lines[i], n.cells[i]);
    }
    forall d | d in t.nodes ensures NodeOk(t, d, root, c) {
      assert NodeOk(s, d, root, NIL);
      if d != c { BesideResized(s, t, root, c, no, l, height, d); }
    }
  }

  lemma {:induction false} BesideResized(s: Snap, t: Snap, root: Id, c: Id, no: nat, l: Id, height: int, d: Id)
    requires root in s.nodes && IsResized(s, t, c, no, l, height) && s.lines[l].parent == c
    requires d in s.nodes && d != c && NodeOk(s, d, root, NIL)
    ensures NodeOk(t, d, root, c)
  {
    if s.nodes[d].isLeaf {
      OtherLeafOk(s, t, d);
    } else {
      var n := s.nodes[d];
      forall i | 0 <= i < |n.children| ensures OwnChild(t, d, n, i, c) { assert OwnChild(s, d, n, i, NIL); }
    }
  }

  /** The parent p of c has taken over the cells of its child i. */
  ghost predicate IsPassedUp(s: Snap, t: Snap, c: Id, p: Id, i: nat, diff: int) {
    && c in s.nodes && p in s.nodes && t.lines == s.lines && s.nodes[c].parent == p
    && i < |s.nodes[p].children| == |s.nodes[p].kids| && s.nodes[p].children[i] == c
    && t.nodes == s.nodes[p := s.nodes[p].(height := s.nodes[p].height + diff, kids := s.nodes[p].kids[i := s.nodes[c].cells],
                                           cells := Concat(s.nodes[p].kids[i := s.nodes[c].cells]))]
  }

  lemma {:induction false} PassUpKeeps(s: Snap, t: Snap, root: Id, c: Id, p: Id, i: nat, no: nat, cell: Cell, diff: int)
    requires Inv(s, root, c) && IsPassedUp(s, t, c, p, i, diff)
    requires no < |s.nodes[p].kids[i]| && s.nodes[c].cells == s.nodes[p].kids[i][no := cell]
    requires diff == cell.height - s.nodes[p].kids[i][no].height
    ensures Inv(t, root, p)
    ensures var at := |Concat(s.nodes[p].kids[..i])| + no;
      at < |s.nodes[p].cells| && s.nodes[p].cells[at] == s.nodes[p].kids[i][no] && t.nodes[p].cells == s.nodes[p].cells[at := cell]
  {
    hide Sum, Concat, LeafOk;
    assert NodeOk(s, c, root, c) && NodeOk(s, p, root, c);
    var n := s.nodes[p];
    ConcatPut(n.kids, i, no, cell);
    ConcatAt(n.kids, i, no);
    SumUpdate(n.cells, |Concat(n.kids[..i])| + no, cell);
    NotOwnParent(s, p, root, c);
    forall d | d in t.nodes ensures NodeOk(t, d, root, p) {
      assert NodeOk(s, d, root, c);
      if !s.nodes[d].isLeaf {
        PassedUpChildren(s, t, root, c, p, i, diff, d);
      } else {
        OtherLeafOk(s, t, d);
      }
    }
  }

  lemma {:induction false} PassedUpChildren(s: Snap, t: Snap, root: Id, c: Id, p: Id, i: nat, diff: int, d: Id)
    requires root in s.nodes && IsPassedUp(s, t, c, p, i, diff) && s.nodes[p].parent != p
    requires d in s.nodes && !s.nodes[d].isLeaf && NodeOk(s, d, root, c)
    ensures forall j :: 0 <= j < |t.nodes[d].children| ==> j < |t.nodes[d].kids| == |t.nodes[d].children| && OwnChild(t, d, t.nodes[d], j, p)
  {
    var n := s.nodes[d];
    forall j | 0 <= j < |n.children| ensures OwnChild(t, d, t.nodes[d], j, p) {
      assert OwnChild(s, d, n, j, c);
    }
  }

  /** The nodes from cur upwards are as they were; below, only heights and cells differ. */
  ghost predicate IsClimbing(s: Snap, t: Snap, root: Id, cur: Id, no: nat, l: Id, height: int) {
    && Inv(t, root, cur) && Bounds(t, root, NIL, NIL) && cur in s.nodes && t.nodes.Keys == s.nodes.Keys
    && (forall e :: e in s.nodes && s.nodes[e].rank > s.nodes[cur].rank ==> t.nodes[e] == s.nodes[e])
    && t.nodes[cur].rank == s.nodes[cur].rank && t.nodes[cur].parent == s.nodes[cur].parent
    && IsAt(s.nodes[cur].cells, no, l) && t.nodes[cur].cells == s.nodes[cur].cells[no := Cell(l, height)]
  }

  lemma {:induction false} ClimbStarts(s: Snap, t: Snap, root: Id, c: Id, no: nat, l: Id, height: int)
    requires Inv(s, root, NIL) && Bounds(s, root, NIL, NIL) && IsResized(s, t, c, no, l, height) && s.nodes[c].isLeaf
    ensures IsClimbing(s, t, root, c, no, l, height)
  {
    ResizeKeeps(s, t, root, c, no, l, height);
    forall e | e in t.nodes ensures SizeOk(t, e, root, NIL, NIL) { assert SizeOk(s, e, root, NIL, NIL); }
  }

  lemma {:induction false} ClimbStep(s: Snap, u: Snap, t: Snap, root: Id, c: Id, p: Id, i: nat, no: nat, l: Id, height: int)
    requires Inv(s, root, NIL) && IsClimbing(s, u, root, c, no, l, height) && s.nodes[c].parent == p
    requires p in u.nodes && i < |u.nodes[p].children| && !s.nodes[p].isLeaf && u.nodes[p].children[i] == c
    requires IsPassedUp(u, t, c, p, i, height - s.nodes[c].cells[no].height) && p in s.nodes && i < |s.nodes[p].kids|
    ensures IsClimbing(s, t, root, p, |Concat(s.nodes[p].kids[..i])| + no, l, height)
    ensures s.nodes[p].cells[|Concat(s.nodes[p].kids[..i])| + no] == s.nodes[c].cells[no]
  {
    ParentLists(s, root, c);
    KidEntry(s, root, p, i);
    PassUpKeeps(u, t, root, c, p, i, no, Cell(l, height), height - s.nodes[c].cells[no].height);
    forall e | e in t.nodes ensures SizeOk(t, e, root, NIL, NIL) { assert SizeOk(u, e, root, NIL, NIL); }
  }

  lemma {:induction false} ClimbEnds(s: Snap, t: Snap, root: Id, no: nat, l: Id, height: int)
    requires Inv(s, root, NIL) && IsClimbing(s, t, root, root, no, l, height)
    ensures Inv(t, root, NIL)
    ensures forall n: nat :: IsAt(s.nodes[root].cells, n, l) ==> t.nodes[root].cells == s.nodes[root].cells[n := Cell(l, height)]
  {
    forall c | c in t.nodes ensures NodeOk(t, c, root, NIL) {
      assert NodeOk(t, c, root, root);
      var n := t.nodes[c];
      if !n.isLeaf {
        forall i | 0 <= i < |n.children| ensures OwnChild(t, c, n, i, NIL) {
          assert OwnChild(t, c, n, i, root);
          assert NodeOk(t, root, root, root);
        }
      }
    }
    forall n: nat | IsAt(s.nodes[root].cells, n, l) ensures n == no { AtOnce(s, root, n, no, l); }
  }

  /** The leaf that holds a line of the document. */
  lemma {:induction false} LeafOfLine(s: Snap, root: Id, l: Id) returns (no: nat)
    requires Inv(s, root, NIL) && exists n :: IsAt(s.nodes[root].cells, n, l)
    ensures l in s.lines && s.lines[l].parent in s.nodes
    ensures var c := s.lines[l].parent;
      s.nodes[c].isLeaf && IsAt(s.nodes[c].cells, no, l) && s.nodes[c].cells[no].height == s.lines[l].height
  {
    var n :| IsAt(s.nodes[root].cells, n, l);
    HolderOf(s, root, root, n);
    var c := s.lines[l].parent;
    assert NodeOk(s, c, root, NIL);
    no :| 0 <= no < |s.nodes[c].lines| && s.nodes[c].lines[no] == l;
    assert OwnLine(s, c, s.nodes[c].lines[no], s.nodes[c].cells[no]);
  }

  /** A line that is in no document may change. */
  lemma {:induction false} LooseChange(s: Snap, t: Snap, root: Id, l: Id)
    requires Inv(s, root, NIL) && Bounds(s, root, NIL, NIL) && l in s.lines && s.lines[l].parent == NIL
    requires t.nodes == s.nodes && forall k :: k in s.lines && k != l ==> k in t.lines && t.lines[k] == s.lines[k]
    ensures Inv(t, root, NIL) && Bounds(t, root, NIL, NIL) && forall n: nat :: !IsAt(s.nodes[root].cells, n, l)
  {
    forall n: nat | n < |s.nodes[root].cells| ensures !IsAt(s.nodes[root].cells, n, l) { HolderOf(s, root, root, n); }
    forall c | c in t.nodes ensures NodeOk(t, c, root, NIL) {
      assert NodeOk(s, c, root, NIL);
      if s.nodes[c].isLeaf { OtherLeafOk(s, t, c); } else { SameBranchOk(s, t, c, s.nodes[c]); }
    }
    forall c | c in t.nodes ensures SizeOk(t, c, root, NIL, NIL) { assert SizeOk(s, c, root, NIL, NIL); }
  }

  /** updateLineHeight: line l, and with it the document, gets the new height. */
  method UpdateLineHeight(doc: Document, l: Id, height: int)
    requires doc.Valid() && l in doc.lines
    requires doc.lines[l].parent == NIL || exists n :: IsAt(doc.Flat(), n, l)
    modifies doc
    ensures doc.Valid() && doc.lines == old(doc.lines)[l := old(doc.lines)[l].(height := height)]
    ensures forall n: nat :: IsAt(old(doc.Flat()), n, l) ==> doc.Flat() == old(doc.Flat())[n := Cell(l, height)]
    ensures (forall n: nat :: !IsAt(old(doc.Flat()), n, l)) ==> doc.Flat() == old(doc.Flat())
  {
    ghost var s := doc.Shot();
    var diff := height - doc.lines[l].height;
    if diff == 0 {
      SameHeight(s, doc.root, l);
      return;
    }
    doc.lines := doc.lines[l := doc.lines[l].(height := height)];
    if doc.lines[l].parent == NIL {
      LooseChange(s, doc.Shot(), doc.root, l);
    } else {
      RaiseAncestors(doc, l, height, diff, s);
    }
  }

  lemma {:induction false} SameHeight(s: Snap, root: Id, l: Id)
    requires Inv(s, root, NIL) && l in s.lines
    ensures s.lines == s.lines[l := s.lines[l].(height := s.lines[l].height)]
    ensures forall n: nat :: IsAt(s.nodes[root].cells, n, l) ==>
      s.nodes[root].cells == s.nodes[root].cells[n := Cell(l, s.lines[l].height)]
  {
    forall n: nat | IsAt(s.nodes[root].cells, n, l) ensures s.nodes[root].cells[n] == Cell(l, s.lines[l].height) {
      HolderOf(s, root, root, n);
    }
  }

  /** The loop from the leaf of the line up to the document. */
  method RaiseAncestors(doc: Document, l: Id, height: int, diff: int, ghost s: Snap)
    requires doc.Alloc() && doc.nodes == s.nodes && l in s.lines && doc.lines == s.lines[l := s.lines[l].(height := height)]
    requires Inv(s, doc.root, NIL) && Bounds(s, doc.root, NIL, NIL) && diff == height - s.lines[l].height
    requires exists n :: IsAt(s.nodes[doc.root].cells, n, l)
    modifies doc`nodes
    ensures doc.Valid()
    ensures forall n: nat :: IsAt(s.nodes[doc.root].cells, n, l) ==> doc.Flat() == s.nodes[doc.root].cells[n := Cell(l, height)]
  {
    ghost var no: nat := LeafOfLine(s, doc.root, l);
    var cur: Id := doc.lines[l].parent;
    doc.nodes := doc.nodes[cur := doc.nodes[cur].(height := doc.nodes[cur].height + diff,
                                                  cells := doc.nodes[cur].cells[no := Cell(l, height)])];
    ClimbStarts(s, doc.Shot(), doc.root, cur, no, l, height);
    RankBelowRoot(s, doc.root, cur);
    while doc.nodes[cur].parent != NIL
      invariant doc.Alloc() && IsClimbing(s, doc.Shot(), doc.root, cur, no, l, height)
      invariant diff == height - s.nodes[cur].cells[no].height && s.nodes[cur].rank <= s.nodes[doc.root].rank
      decreases s.nodes[doc.root].rank - s.nodes[cur].rank
    {
      var p: Id := doc.nodes[cur].parent;
      no := RaiseParent(doc, cur, p, no, l, height, diff, s);
      cur := p;
    }
    assert NodeOk(s, cur, doc.root, NIL);
    ClimbEnds(s, doc.Shot(), doc.root, no, l, height);
  }

  method RaiseParent(doc: Document, ghost cur: Id, p: Id, ghost no: nat, ghost l: Id, ghost height: int, diff: int, ghost s: Snap)
    returns (ghost at: nat)
    requires doc.Alloc() && Inv(s, doc.root, NIL) && IsClimbing(s, doc.Shot(), doc.root, cur, no, l, height)
    requires diff == height - s.nodes[cur].cells[no].height && s.nodes[cur].parent == p
    modifies doc`nodes
    ensures doc.Alloc() && IsClimbing(s, doc.Shot(), doc.root, p, at, l, height)
    ensures s.nodes[p].cells[at] == s.nodes[cur].cells[no]
    ensures s.nodes[cur].rank < s.nodes[p].rank <= s.nodes[doc.root].rank
  {
    ghost var u := doc.Shot();
    ParentLists(s, doc.root, cur);
    ghost var i :| 0 <= i < |s.nodes[p].children| && s.nodes[p].children[i] == cur;
    KidEntry(s, doc.root, p, i);
    ghost var kids := doc.nodes[p].kids[i := doc.nodes[cur].cells];
    doc.nodes := doc.nodes[p := doc.nodes[p].(height := doc.nodes[p].height + diff, kids := kids, cells := Concat(kids))];
    ClimbStep(s, u, doc.Shot(), doc.root, cur, p, i, no, l, height);
    at := |Concat(s.nodes[p].kids[..i])| + no;
  }
}
