/** updateDoc of codemirror.js: a change of text carried out on the line tree. */
module UpdateDoc {
  import opened Seqs
  import opened Chunks
  import opened ChunkInsert
  import opened LineTree
  import opened LineLookup
  import opened Text

  /** The text of the lines that the cells count. */
  ghost function Texts(cells: seq<Cell>, lines: map<Id, Line>): (t: seq<string>)
    ensures |t| == |cells|
  {
    seq(|cells|, i requires 0 <= i < |cells| => if cells[i].line in lines then lines[cells[i].line].text else "")
  }

  ghost function TextOf(doc: Document): seq<string>
    requires doc.Valid()
    reads doc
  {
    Texts(doc.Flat(), doc.lines)
  }

  /** The line objects, in order. */
  ghost function Ids(cells: seq<Cell>): (r: seq<Id>)
    ensures |r| == |cells| && forall i :: 0 <= i < |r| ==> r[i] == cells[i].line
  {
    seq(|cells|, i requires 0 <= i < |cells| => cells[i].line)
  }

  ghost function Heights(cells: seq<Cell>): (r: seq<int>)
    ensures |r| == |cells|
  {
    seq(|cells|, i requires 0 <= i < |cells| => cells[i].height)
  }

  /** What is before `from` and from `to` on is the same as before, `lendiff` places further. */
  ghost predicate KeptAround<T>(was: seq<T>, now: seq<T>, from: nat, to: nat, lendiff: int) {
    && from <= to <= |was| && from <= to + lendiff <= |now| == |was| + lendiff
    && now[..from] == was[..from] && now[to + lendiff..] == was[to..]
  }

  function Estimates(texts: seq<string>, estimate: string -> int): (r: seq<int>)
    ensures |r| == |texts|
  {
    seq(|texts|, i requires 0 <= i < |texts| => estimate(texts[i]))
  }

  /** The lines of a change have the heights estimated for their new texts, and all others those that they had. */
  ghost predicate Measured(was: seq<int>, now: seq<int>, text: seq<string>, from: nat, to: nat, lendiff: int, estimate: string -> int) {
    && KeptAround(was, now, from, to, lendiff) && |text| == |now|
    && forall i :: from <= i < to + lendiff ==> now[i] == estimate(text[i])
  }

  ghost function Lendiff(c: Change): int {
    |c.text| - (c.to.line - c.from.line) - 1
  }

  lemma {:induction false} FlatInLines(doc: Document)
    requires doc.Valid()
    ensures forall i :: 0 <= i < |doc.Flat()| ==>
      doc.Flat()[i].line in doc.lines && doc.Flat()[i].height == doc.lines[doc.Flat()[i].line].height
  {
    forall i | 0 <= i < |doc.Flat()|
      ensures doc.Flat()[i].line in doc.lines && doc.Flat()[i].height == doc.lines[doc.Flat()[i].line].height
    { HolderOf(doc.Shot(), doc.root, doc.root, i); }
  }

  // ------------------------------------------------------------------ lines of the document

  /** Another text in one line. */
  lemma {:induction false} TextChangeKeeps(s: Snap, t: Snap, root: Id)
    requires Inv(s, root, NIL) && Bounds(s, root, NIL, NIL) && t.nodes == s.nodes && t.lines.Keys == s.lines.Keys
    requires forall k :: k in s.lines ==> t.lines[k] == s.lines[k].(text := t.lines[k].text)
    ensures Inv(t, root, NIL) && Bounds(t, root, NIL, NIL)
  {
    forall c | c in t.nodes ensures NodeOk(t, c, root, NIL) {
      assert NodeOk(s, c, root, NIL);
      if s.nodes[c].isLeaf {
        var n := s.nodes[c];
        forall i | 0 <= i < |n.lines| ensures OwnLine(t, c, n.lines[i], n.cells[i]) { assert OwnLine(s, c, n.lines[i], n.cells[i]); }
      } else {
        var n := s.nodes[c];
        forall i | 0 <= i < |n.children| ensures OwnChild(t, c, n, i, NIL) { assert OwnChild(s, c, n, i, NIL); }
      }
    }
    forall c | c in t.nodes ensures SizeOk(t, c, root, NIL, NIL) { assert SizeOk(s, c, root, NIL, NIL); }
  }

  /** updateLine, as far as text and height go. */
  method UpdateLine(doc: Document, l: Id, text: string, estimate: string -> int, ghost n: nat)
    requires doc.Valid() && l in doc.lines && IsAt(doc.Flat(), n, l)
    modifies doc
    ensures doc.Valid() && TextOf(doc) == old(TextOf(doc))[n := text]
    ensures doc.lines == old(doc.lines)[l := old(doc.lines)[l].(text := text, height := estimate(text))]
    ensures doc.Flat() == old(doc.Flat())[n := Cell(l, estimate(text))]
    ensures Ids(doc.Flat()) == Ids(old(doc.Flat())) && Heights(doc.Flat()) == Heights(old(doc.Flat()))[n := estimate(text)]
  {
    ghost var s := doc.Shot();
    FlatInLines(doc);
    FlatNoDup(s, doc.root);
    doc.lines := doc.lines[l := doc.lines[l].(text := text)];
    TextChangeKeeps(s, doc.Shot(), doc.root);
    assert IsAt(doc.Flat(), n, l);
    if estimate(text) != doc.lines[l].height {
      UpdateLineHeight(doc, l, estimate(text));
    } else {
      assert doc.Flat()[n] == Cell(l, estimate(text));
    }
  }

  /** linesFor: new lines, in no leaf yet. */
  method LinesFor(doc: Document, texts: seq<string>, estimate: string -> int) returns (added: seq<Id>)
    requires doc.Valid()
    modifies doc`lines
    ensures doc.Valid() && Waiting(doc.lines, added, texts, estimate) && forall l :: l in added ==> l !in old(doc.lines)
    ensures forall k :: k in old(doc.lines) ==> k in doc.lines && doc.lines[k] == old(doc.lines)[k]
    ensures doc.Flat() == old(doc.Flat()) && TextOf(doc) == old(TextOf(doc))
  {
    FlatInLines(doc);
    added := [];
    for i := 0 to |texts|
      invariant doc.Valid() && Waiting(doc.lines, added, texts[..i], estimate) && forall l :: l in added ==> l !in old(doc.lines)
      invariant forall k :: k in old(doc.lines) ==> k in doc.lines && doc.lines[k] == old(doc.lines)[k]
    {
      var l := doc.NewLine(texts[i], estimate(texts[i]));
      added := added + [l];
    }
    assert texts[..|texts|] == texts;
  }

  /** Lines that wait to be inserted, with their texts and the heights estimated for them. */
  ghost predicate Waiting(lines: map<Id, Line>, added: seq<Id>, texts: seq<string>, estimate: string -> int) {
    && |added| == |texts| && NoDup(added)
    && forall i :: 0 <= i < |added| ==> added[i] in lines && lines[added[i]] == Line(texts[i], estimate(texts[i]), NIL)
  }

  /** They are not touched by changes of others. */
  lemma StillWaiting(a: map<Id, Line>, b: map<Id, Line>, added: seq<Id>, texts: seq<string>, l: Id, estimate: string -> int)
    requires Waiting(a, added, texts, estimate) && l !in added && b.Keys == a.Keys
    requires forall k :: k in b && k != l ==> b[k] == a[k]
    ensures Waiting(b, added, texts, estimate)
  {}

  // ------------------------------------------------------------------ what the tree operations do to the text

  lemma {:induction false} TextsSpliced(cells: seq<Cell>, at: nat, added: seq<Cell>, a: map<Id, Line>, b: map<Id, Line>, texts: seq<string>)
    requires at <= |cells| && SameText(a, b) && |added| == |texts|
    requires forall i :: 0 <= i < |added| ==> added[i].line in a && a[added[i].line].text == texts[i]
    ensures Texts(Splice(cells, at, added), b) == Splice(Texts(cells, a), at, texts)
  {
    var x, y := Texts(Splice(cells, at, added), b), Splice(Texts(cells, a), at, texts);
    forall i | 0 <= i < |x| ensures x[i] == y[i] {
      if at <= i < at + |added| { assert Splice(cells, at, added)[i] == added[i - at]; }
    }
  }

  lemma TextsCut(cells: seq<Cell>, at: nat, n: nat, a: map<Id, Line>, b: map<Id, Line>)
    requires at + n <= |cells| && SameText(a, b)
    ensures Texts(Cut(cells, at, n), b) == Cut(Texts(cells, a), at, n)
  {}

  lemma {:induction false} HeightsSpliced(cells: seq<Cell>, at: nat, added: seq<Cell>)
    requires at <= |cells|
    ensures Heights(Splice(cells, at, added)) == Splice(Heights(cells), at, Heights(added))
  {
    var x, y := Heights(Splice(cells, at, added)), Splice(Heights(cells), at, Heights(added));
    forall i | 0 <= i < |x| ensures x[i] == y[i] {
      if at <= i < at + |added| { assert Splice(cells, at, added)[i] == added[i - at]; }
    }
  }

  method InsertTexts(doc: Document, at: nat, added: seq<Id>, ghost texts: seq<string>, ghost estimate: string -> int)
    requires doc.Valid() && at <= |doc.Flat()| && Waiting(doc.lines, added, texts, estimate)
    modifies doc
    ensures doc.Valid() && TextOf(doc) == Splice(old(TextOf(doc)), at, texts)
    ensures Ids(doc.Flat()) == Splice(Ids(old(doc.Flat())), at, added)
    ensures Heights(doc.Flat()) == Splice(Heights(old(doc.Flat())), at, Estimates(texts, estimate))
  {
    ghost var cells, s := doc.Flat(), doc.Shot();
    doc.Insert(at, added);
    TextsSpliced(cells, at, Cells(s, added), s.lines, doc.lines, texts);
    HeightsSpliced(cells, at, Cells(s, added));
    assert Heights(Cells(s, added)) == Estimates(texts, estimate);
  }

  method RemoveTexts(doc: Document, at: nat, n: nat)
    requires doc.Valid() && n > 0 && at + n <= |doc.Flat()|
    modifies doc
    ensures doc.Valid() && TextOf(doc) == Cut(old(TextOf(doc)), at, n) && Released(old(doc.lines), doc.lines)
    ensures Ids(doc.Flat()) == Cut(Ids(old(doc.Flat())), at, n) && Heights(doc.Flat()) == Cut(Heights(old(doc.Flat())), at, n)
  {
    ghost var cells, s := doc.Flat(), doc.Shot();
    doc.Remove(at, n);
    assert Heights(Cut(cells, at, n)) == Cut(Heights(cells), at, n);
    TextsCut(cells, at, n, s.lines, doc.lines);
  }

  // ------------------------------------------------------------------ the branches in terms of the text

  /** The lines that the range of the change becomes. */
  ghost function Middle(t: Lines, c: Change): seq<string>
    requires Fits(t, c)
  {
    var pre, suf, n := t[c.from.line][..c.from.ch], t[c.to.line][c.to.ch..], |c.text|;
    if n == 1 then [pre + c.text[0] + suf] else [pre + c.text[0]] + c.text[1..n - 1] + [c.text[n - 1] + suf]
  }

  lemma {:induction false} Unfolded(t: Lines, c: Change)
    requires Fits(t, c)
    ensures Replaced(t, c) == t[..c.from.line] + Middle(t, c) + t[c.to.line + 1..]
  {
    var f, n := c.from.line, |c.text|;
    var pre := t[f][..c.from.ch];
    var h := Glue(Head(t, c.from), c.text);
    if n == 1 {
      assert h == t[..f] + [pre + c.text[0]];
    } else {
      assert h == t[..f] + ([pre + c.text[0]] + c.text[1..]);
      assert h[..|h| - 1] == t[..f] + ([pre + c.text[0]] + c.text[1..n - 1]);
    }
  }

  lemma {:induction false} OneToOne(t: Lines, c: Change)
    requires Fits(t, c) && c.from.line == c.to.line && |c.text| == 1
    ensures var f := c.from.line;
      t[f := t[f][..c.from.ch] + c.text[0] + t[f][c.to.ch..]] == Replaced(t, c)
  {
    Unfolded(t, c);
  }

  lemma {:induction false} OneToMany(t: Lines, c: Change)
    requires Fits(t, c) && c.from.line == c.to.line && |c.text| > 1
    ensures var f, n := c.from.line, |c.text|;
      Splice(t[f := t[f][..c.from.ch] + c.text[0]], f + 1, c.text[1..n - 1] + [c.text[n - 1] + t[f][c.to.ch..]]) == Replaced(t, c)
  {
    Unfolded(t, c);
  }

  lemma {:induction false} ManyToOne(t: Lines, c: Change)
    requires Fits(t, c) && c.from.line < c.to.line && |c.text| == 1
    ensures var f, g := c.from.line, c.to.line;
      Cut(t[f := t[f][..c.from.ch] + c.text[0] + t[g][c.to.ch..]], f + 1, g - f) == Replaced(t, c)
  {
    Unfolded(t, c);
  }

  /** The text between the updates of the first and the last line and the insertion. */
  ghost function Emptied<T>(t: seq<T>, f: nat, g: nat): seq<T>
    requires f < g < |t|
  {
    if g - f > 1 then Cut(t, f + 1, g - f - 1) else t
  }

  lemma {:induction false} ManyToMany(t: Lines, c: Change)
    requires Fits(t, c) && c.from.line < c.to.line && |c.text| > 1
    ensures var f, g, n := c.from.line, c.to.line, |c.text|;
      var u := t[f := t[f][..c.from.ch] + c.text[0]][g := c.text[n - 1] + t[g][c.to.ch..]];
      Splice(Emptied(u, f, g), f + 1, c.text[1..n - 1]) == Replaced(t, c)
  {
    hide Replaced;
    Unfolded(t, c);
    var f, g, n := c.from.line, c.to.line, |c.text|;
    EndsReplaced(t, f, g, t[f][..c.from.ch] + c.text[0], c.text[n - 1] + t[g][c.to.ch..], c.text[1..n - 1]);
  }

  /** Two lines get other texts, and the lines between them are replaced. */
  lemma {:induction false} EndsReplaced(t: seq<string>, f: nat, g: nat, x: string, y: string, between: seq<string>)
    requires f < g < |t|
    ensures Splice(Emptied(t[f := x][g := y], f, g), f + 1, between) == t[..f] + ([x] + between + [y]) + t[g + 1..]
  {
    var u := t[f := x][g := y];
    assert u[..f + 1] == t[..f] + [x] && u[g..] == [y] + t[g + 1..];
    assert Emptied(u, f, g) == u[..f + 1] + u[g..];
  }

  lemma {:induction false} WholeLines(t: Lines, c: Change)
    requires Fits(t, c) && c.from.ch == 0 && c.to.ch == 0 && c.text[|c.text| - 1] == ""
    ensures var f, g, n := c.from.line, c.to.line, |c.text|;
      Splice(if g > f then Cut(t, f, g - f) else t, f, c.text[..n - 1]) == Replaced(t, c)
  {
    var f, g, n := c.from.line, c.to.line, |c.text|;
    Unfolded(t, c);
    NoneAround(t, c);
    LinesKept(t, f, g);
    SpliceRegroups(if g > f then Cut(t, f, g - f) else t, f, t[..f], c.text[..n - 1], [t[g]], t[g + 1..], Middle(t, c), Replaced(t, c));
  }

  lemma {:induction false} LinesKept(t: seq<string>, f: nat, g: nat)
    requires f <= g < |t|
    ensures var kept := if g > f then Cut(t, f, g - f) else t;
      kept[..f] == t[..f] && kept[f..] == [t[g]] + t[g + 1..]
  {
    var kept := if g > f then Cut(t, f, g - f) else t;
    assert kept[f..] == t[g..];
    assert t[g..] == [t[g]] + t[g + 1..];
  }

  lemma {:induction false} NoneAround(t: Lines, c: Change)
    requires Fits(t, c) && c.from.ch == 0 && c.to.ch == 0 && c.text[|c.text| - 1] == ""
    ensures Middle(t, c) == c.text[..|c.text| - 1] + [t[c.to.line]]
  {
    var g, n := c.to.line, |c.text|;
    if n == 1 {
      assert "" + c.text[0] + t[g] == t[g];
    } else {
      assert "" + c.text[0] == c.text[0] && c.text[n - 1] + t[g] == t[g];
      assert [c.text[0]] + c.text[1..n - 1] == c.text[..n - 1];
    }
  }

  lemma {:induction false} SpliceRegroups(kept: seq<string>, f: nat, a: seq<string>, x: seq<string>, y: seq<string>, z: seq<string>,
                       middle: seq<string>, whole: seq<string>)
    requires f <= |kept| && kept[..f] == a && kept[f..] == y + z && middle == x + y && whole == a + middle + z
    ensures Splice(kept, f, x) == whole
  {
    assert a + x + (y + z) == a + (x + y) + z;
  }

  // ------------------------------------------------------------------ the branches

  /** isWholeLineUpdate; `before` is whether the document has no editor or its option is set. */
  predicate IsWholeLineUpdate(c: Change, before: bool) {
    c.from.ch == 0 && c.to.ch == 0 && c.text[|c.text| - 1] == "" && before
  }

  /** getLine, for a line that there is. */
  method LineAt(doc: Document, n: nat) returns (l: Id, text: string)
    requires doc.Valid() && n < |doc.Flat()|
    ensures IsAt(doc.Flat(), n, l) && l in doc.lines && text == doc.lines[l].text == TextOf(doc)[n]
  {
    var found := GetLine(doc, n);
    l := found.line;
    FlatInLines(doc);
    text := doc.lines[l].text;
  }

  method UpdateWholeLines(doc: Document, c: Change, estimate: string -> int, ghost t: Lines)
    requires doc.Valid() && t == TextOf(doc) && Fits(t, c) && IsWholeLineUpdate(c, true)
    modifies doc
    ensures doc.Valid() && TextOf(doc) == Replaced(t, c)
    ensures KeptAround(Ids(old(doc.Flat())), Ids(doc.Flat()), c.from.line, c.to.line + 1, Lendiff(c))
    ensures Measured(Heights(old(doc.Flat())), Heights(doc.Flat()), TextOf(doc), c.from.line, c.to.line + 1, Lendiff(c), estimate)
  {
    var from, nlines, n := c.from.line, c.to.line - c.from.line, |c.text|;
    hide Replaced, KeptAround, Splice, Cut, Measured;
    WholeLines(t, c);
    ghost var cells := doc.Flat();
    var added := PrepareWhole(doc, c, estimate, t);
    ghost var ids := Ids(doc.Flat());
    MoveLines(doc, from, nlines, added, c.text[..n - 1], estimate);
    KeptWhole(ids, from, nlines, added);
    MeasuredWhole(Heights(cells), t, from, c.to.line, c.text[..n - 1], estimate);
  }

  /** The new lines are made, and the line behind them is updated with the text that it has. */
  method PrepareWhole(doc: Document, c: Change, estimate: string -> int, ghost t: Lines) returns (added: seq<Id>)
    requires doc.Valid() && t == TextOf(doc) && Fits(t, c)
    modifies doc
    ensures doc.Valid() && TextOf(doc) == t && Waiting(doc.lines, added, c.text[..|c.text| - 1], estimate)
    ensures Ids(doc.Flat()) == Ids(old(doc.Flat()))
    ensures Heights(doc.Flat()) == Heights(old(doc.Flat()))[c.to.line := estimate(t[c.to.line])]
  {
    var n := |c.text|;
    var lastLine, lastText := LineAt(doc, c.to.line);
    FlatInLines(doc);
    added := LinesFor(doc, c.text[..n - 1], estimate);
    ghost var before := doc.lines;
    UpdateLine(doc, lastLine, lastText, estimate, c.to.line);
    StillWaiting(before, doc.lines, added, c.text[..n - 1], lastLine, estimate);
  }

  /** What changed within the range before makes no difference. */
  lemma KeptBesides<T>(was: seq<T>, mid: seq<T>, now: seq<T>, from: nat, to: nat, lendiff: int)
    requires from <= to <= |was| == |mid| && mid[..from] == was[..from] && mid[to..] == was[to..]
    ensures KeptAround(mid, now, from, to, lendiff) <==> KeptAround(was, now, from, to, lendiff)
  {
  }

  /** The lines in front of line g are replaced, and g itself is measured again. */
  lemma {:induction false} MeasuredWhole(was: seq<int>, t: seq<string>, f: nat, g: nat, texts: seq<string>, estimate: string -> int)
    requires f <= g < |t| == |was|
    ensures var now := Splice(Cut(was[g := estimate(t[g])], f, g - f), f, Estimates(texts, estimate));
      Measured(was, now, Splice(if g > f then Cut(t, f, g - f) else t, f, texts), f, g + 1, |texts| - (g - f), estimate)
  {
    var mid, text := was[g := estimate(t[g])], Splice(if g > f then Cut(t, f, g - f) else t, f, texts);
    var now := Splice(Cut(mid, f, g - f), f, Estimates(texts, estimate));
    KeptWhole(mid, f, g - f, Estimates(texts, estimate));
    KeptBesides(was, mid, now, f, g + 1, |texts| - (g - f));
    var end := f + |texts|;
    assert now[end] == mid[g] && text[end] == t[g];
    forall i | f <= i < end ensures now[i] == estimate(text[i]) {
      assert now[i] == Estimates(texts, estimate)[i - f] && text[i] == texts[i - f];
    }
  }

  /** Some lines out and others in at the same place, seen with the line behind them. */
  lemma {:induction false} KeptWhole<T>(ids: seq<T>, at: nat, out: nat, added: seq<T>)
    requires at + out < |ids|
    ensures KeptAround(ids, Splice(Cut(ids, at, out), at, added), at, at + out + 1, |added| - out)
  {
    var now := Splice(Cut(ids, at, out), at, added);
    assert now == ids[..at] + added + ids[at + out..];
    assert now[at + |added|..] == ids[at + out..];
    assert now[at + |added| + 1..] == ids[at + out..][1..] == ids[at + out + 1..];
  }

  /** The same, seen with the lines on both sides. */
  lemma {:induction false} KeptInner<T>(ids: seq<T>, at: nat, out: nat, added: seq<T>)
    requires 0 < at && at + out < |ids|
    ensures KeptAround(ids, Splice(Cut(ids, at, out), at, added), at - 1, at + out + 1, |added| - out)
  {
    KeptWhole(ids, at, out, added);
    var now := Splice(Cut(ids, at, out), at, added);
    assert now[..at - 1] == now[..at][..at - 1] == ids[..at - 1];
  }

  method MoveLines(doc: Document, from: nat, nlines: nat, added: seq<Id>, ghost texts: seq<string>, ghost estimate: string -> int)
    requires doc.Valid() && from + nlines <= |doc.Flat()| && Waiting(doc.lines, added, texts, estimate)
    modifies doc
    ensures doc.Valid()
    ensures TextOf(doc) == Splice(if nlines > 0 then Cut(old(TextOf(doc)), from, nlines) else old(TextOf(doc)), from, texts)
    ensures Ids(doc.Flat()) == Splice(Cut(Ids(old(doc.Flat())), from, nlines), from, added)
    ensures Heights(doc.Flat()) == Splice(Cut(Heights(old(doc.Flat())), from, nlines), from, Estimates(texts, estimate))
  {
    if nlines > 0 {
      RemoveTexts(doc, from, nlines);
    } else {
      NothingCut(Ids(doc.Flat()), from);
      NothingCut(Heights(doc.Flat()), from);
    }
    if added != [] {
      InsertTexts(doc, from, added, texts, estimate);
    } else {
      NothingSpliced(TextOf(doc), from, texts);
      NothingSpliced(Ids(doc.Flat()), from, added);
      NothingSpliced(Heights(doc.Flat()), from, Estimates(texts, estimate));
    }
  }

  lemma NothingCut<T>(s: seq<T>, at: nat)
    requires at <= |s|
    ensures Cut(s, at, 0) == s
  {}

  lemma NothingSpliced<T>(s: seq<T>, at: nat, x: seq<T>)
    requires at <= |s| && x == []
    ensures Splice(s, at, x) == s
  {}

  method UpdateOneLine(doc: Document, c: Change, estimate: string -> int, ghost t: Lines)
    requires doc.Valid() && t == TextOf(doc) && Fits(t, c) && c.from.line == c.to.line
    modifies doc
    ensures doc.Valid() && TextOf(doc) == Replaced(t, c)
    ensures KeptAround(Ids(old(doc.Flat())), Ids(doc.Flat()), c.from.line, c.to.line + 1, Lendiff(c))
    ensures Measured(Heights(old(doc.Flat())), Heights(doc.Flat()), TextOf(doc), c.from.line, c.to.line + 1, Lendiff(c), estimate)
    ensures |c.text| == 1 ==> Ids(doc.Flat()) == Ids(old(doc.Flat()))
  {
    var f, n := c.from.line, |c.text|;
    var first, text := LineAt(doc, f);
    if n == 1 {
      OneToOne(t, c);
      UpdateLine(doc, first, text[..c.from.ch] + c.text[0] + text[c.to.ch..], estimate, f);
    } else {
      SplitLine(doc, c, first, text, estimate, t);
    }
  }

  method SplitLine(doc: Document, c: Change, first: Id, text: string, estimate: string -> int, ghost t: Lines)
    requires doc.Valid() && t == TextOf(doc) && Fits(t, c) && c.from.line == c.to.line && |c.text| > 1
    requires first in doc.lines && IsAt(doc.Flat(), c.from.line, first) && text == t[c.from.line]
    modifies doc
    ensures doc.Valid() && TextOf(doc) == Replaced(t, c)
    ensures KeptAround(Ids(old(doc.Flat())), Ids(doc.Flat()), c.from.line, c.to.line + 1, Lendiff(c))
    ensures Measured(Heights(old(doc.Flat())), Heights(doc.Flat()), TextOf(doc), c.from.line, c.to.line + 1, Lendiff(c), estimate)
  {
    var f, n := c.from.line, |c.text|;
    OneToMany(t, c);
    var texts := c.text[1..n - 1] + [c.text[n - 1] + text[c.to.ch..]];
    var added := LinesFor(doc, texts, estimate);
    ghost var before := doc.lines;
    ghost var cells := doc.Flat();
    UpdateLine(doc, first, text[..c.from.ch] + c.text[0], estimate, f);
    StillWaiting(before, doc.lines, added, texts, first, estimate);
    InsertTexts(doc, f + 1, added, texts, estimate);
    MeasuredSplit(Heights(cells), t, f, text[..c.from.ch] + c.text[0], texts, estimate);
  }

  /** Line f has another text, and new lines follow it. */
  lemma {:induction false} MeasuredSplit(was: seq<int>, t: seq<string>, f: nat, x: string, texts: seq<string>, estimate: string -> int)
    requires f < |t| == |was|
    ensures var now := Splice(was[f := estimate(x)], f + 1, Estimates(texts, estimate));
      Measured(was, now, Splice(t[f := x], f + 1, texts), f, f + 1, |texts|, estimate)
  {
    var now, text := Splice(was[f := estimate(x)], f + 1, Estimates(texts, estimate)), Splice(t[f := x], f + 1, texts);
    assert now[..f] == was[..f] && now[f + 1 + |texts|..] == was[f + 1..];
    forall i | f <= i < f + 1 + |texts| ensures now[i] == estimate(text[i]) {
      if i > f { assert now[i] == Estimates(texts, estimate)[i - f - 1] && text[i] == texts[i - f - 1]; }
    }
  }

  method UpdateToOneLine(doc: Document, c: Change, estimate: string -> int, ghost t: Lines)
    requires doc.Valid() && t == TextOf(doc) && Fits(t, c) && c.from.line < c.to.line && |c.text| == 1
    modifies doc
    ensures doc.Valid() && TextOf(doc) == Replaced(t, c)
    ensures KeptAround(Ids(old(doc.Flat())), Ids(doc.Flat()), c.from.line, c.to.line + 1, Lendiff(c))
    ensures Measured(Heights(old(doc.Flat())), Heights(doc.Flat()), TextOf(doc), c.from.line, c.to.line + 1, Lendiff(c), estimate)
  {
    var f, g := c.from.line, c.to.line;
    ManyToOne(t, c);
    var first, text := LineAt(doc, f);
    var last, lastText := LineAt(doc, g);
    ghost var was, x := Heights(doc.Flat()), text[..c.from.ch] + c.text[0] + lastText[c.to.ch..];
    UpdateLine(doc, first, text[..c.from.ch] + c.text[0] + lastText[c.to.ch..], estimate, f);
    RemoveTexts(doc, f + 1, g - f);
    MeasuredJoin(was, t, f, g, x, estimate);
  }

  /** Line f has another text, and the lines up to g are gone. */
  lemma {:induction false} MeasuredJoin(was: seq<int>, t: seq<string>, f: nat, g: nat, x: string, estimate: string -> int)
    requires f < g < |t| == |was|
    ensures Measured(was, Cut(was[f := estimate(x)], f + 1, g - f), Cut(t[f := x], f + 1, g - f), f, g + 1, f - g, estimate)
  {
    var now := Cut(was[f := estimate(x)], f + 1, g - f);
    assert now[..f] == was[..f] && now[f + 1..] == was[g + 1..];
  }

  method UpdateManyLines(doc: Document, c: Change, estimate: string -> int, ghost t: Lines)
    requires doc.Valid() && t == TextOf(doc) && Fits(t, c) && c.from.line < c.to.line && |c.text| > 1
    modifies doc
    ensures doc.Valid() && TextOf(doc) == Replaced(t, c)
    ensures KeptAround(Ids(old(doc.Flat())), Ids(doc.Flat()), c.from.line, c.to.line + 1, Lendiff(c))
    ensures Measured(Heights(old(doc.Flat())), Heights(doc.Flat()), TextOf(doc), c.from.line, c.to.line + 1, Lendiff(c), estimate)
  {
    hide Replaced, KeptAround, Splice, Cut;
    var f, g, n := c.from.line, c.to.line, |c.text|;
    ghost var cells := doc.Flat();
    UpdateBothEnds(doc, c, estimate, t);
    var added := LinesFor(doc, c.text[1..n - 1], estimate);
    ghost var ids := Ids(doc.Flat());
    MoveInner(doc, f, g, added, c.text[1..n - 1], estimate);
    KeptInner(ids, f + 1, g - f - 1, added);
    ManyToMany(t, c);
    MeasuredEnds(Heights(cells), t, f, g, t[f][..c.from.ch] + c.text[0], c.text[n - 1] + t[g][c.to.ch..], c.text[1..n - 1], estimate);
  }

  /** Lines f and g have other texts, and the lines between them are replaced. */
  lemma {:induction false} MeasuredEnds(was: seq<int>, t: seq<string>, f: nat, g: nat, x: string, y: string, texts: seq<string>,
                     estimate: string -> int)
    requires f < g < |t| == |was|
    ensures var now := Splice(Cut(was[f := estimate(x)][g := estimate(y)], f + 1, g - f - 1), f + 1, Estimates(texts, estimate));
      Measured(was, now, Splice(Emptied(t[f := x][g := y], f, g), f + 1, texts), f, g + 1, |texts| - (g - f) + 1, estimate)
  {
    var mid, ends := was[f := estimate(x)][g := estimate(y)], t[f := x][g := y];
    var now, text := Splice(Cut(mid, f + 1, g - f - 1), f + 1, Estimates(texts, estimate)), Splice(Emptied(ends, f, g), f + 1, texts);
    KeptInner(mid, f + 1, g - f - 1, Estimates(texts, estimate));
    assert mid[..f] == was[..f] && mid[g + 1..] == was[g + 1..];
    var end := f + 1 + |texts|;
    assert now[end] == mid[g] && text[end] == y && now[f] == mid[f] && text[f] == x;
    forall i | f < i < end ensures now[i] == estimate(text[i]) {
      assert now[i] == Estimates(texts, estimate)[i - f - 1] && text[i] == texts[i - f - 1];
    }
  }

  /** The lines strictly between two lines are replaced. */
  method MoveInner(doc: Document, f: nat, g: nat, added: seq<Id>, ghost texts: seq<string>, ghost estimate: string -> int)
    requires doc.Valid() && f < g < |doc.Flat()| && Waiting(doc.lines, added, texts, estimate)
    modifies doc
    ensures doc.Valid() && TextOf(doc) == Splice(Emptied(old(TextOf(doc)), f, g), f + 1, texts)
    ensures Ids(doc.Flat()) == Splice(Cut(Ids(old(doc.Flat())), f + 1, g - f - 1), f + 1, added)
    ensures Heights(doc.Flat()) == Splice(Cut(Heights(old(doc.Flat())), f + 1, g - f - 1), f + 1, Estimates(texts, estimate))
  {
    hide Splice;
    if g - f > 1 {
      RemoveTexts(doc, f + 1, g - f - 1);
    } else {
      NothingCut(Ids(doc.Flat()), f + 1);
      NothingCut(Heights(doc.Flat()), f + 1);
    }
    InsertTexts(doc, f + 1, added, texts, estimate);
  }

  /** The updates of the first and the last line of the range. */
  method UpdateBothEnds(doc: Document, c: Change, estimate: string -> int, ghost t: Lines)
    requires doc.Valid() && t == TextOf(doc) && Fits(t, c) && c.from.line < c.to.line && |c.text| > 1
    modifies doc
    ensures doc.Valid() && Ids(doc.Flat()) == Ids(old(doc.Flat()))
    ensures TextOf(doc) == t[c.from.line := t[c.from.line][..c.from.ch] + c.text[0]]
                            [c.to.line := c.text[|c.text| - 1] + t[c.to.line][c.to.ch..]]
    ensures Heights(doc.Flat()) == Heights(old(doc.Flat()))[c.from.line := estimate(t[c.from.line][..c.from.ch] + c.text[0])]
                            [c.to.line := estimate(c.text[|c.text| - 1] + t[c.to.line][c.to.ch..])]
  {
    var first, text := LineAt(doc, c.from.line);
    var last, lastText := LineAt(doc, c.to.line);
    FlatNoDup(doc.Shot(), doc.root);
    UpdateLine(doc, first, text[..c.from.ch] + c.text[0], estimate, c.from.line);
    UpdateLine(doc, last, c.text[|c.text| - 1] + lastText[c.to.ch..], estimate, c.to.line);
  }

  /** updateDoc without `full`: all branches replace the range of the change by its text. */
  method UpdateDoc(doc: Document, c: Change, wholeLineBefore: bool, estimate: string -> int)
    requires doc.Valid() && doc.Flat() != [] && Fits(TextOf(doc), c)
    modifies doc
    ensures doc.Valid() && TextOf(doc) == Replaced(old(TextOf(doc)), c)
    ensures KeptAround(Ids(old(doc.Flat())), Ids(doc.Flat()), c.from.line, c.to.line + 1, Lendiff(c))
    ensures Measured(Heights(old(doc.Flat())), Heights(doc.Flat()), TextOf(doc), c.from.line, c.to.line + 1, Lendiff(c), estimate)
    ensures c.from.line == c.to.line && |c.text| == 1 && !IsWholeLineUpdate(c, wholeLineBefore) ==>
      Ids(doc.Flat()) == Ids(old(doc.Flat()))
  {
    ghost var t := TextOf(doc);
    if IsWholeLineUpdate(c, wholeLineBefore) {
      UpdateWholeLines(doc, c, estimate, t);
    } else if c.from.line == c.to.line {
      UpdateOneLine(doc, c, estimate, t);
    } else if |c.text| == 1 {
      UpdateToOneLine(doc, c, estimate, t);
    } else {
      UpdateManyLines(doc, c, estimate, t);
    }
  }

  /** updateDoc with `full`, in a document that starts at line 0. */
  method UpdateFull(doc: Document, text: Lines, estimate: string -> int)
    requires doc.Valid() && doc.Flat() != []
    modifies doc
    ensures doc.Valid() && TextOf(doc) == text && Heights(doc.Flat()) == Estimates(text, estimate)
  {
    hide Cut;
    ghost var t, was := TextOf(doc), Heights(doc.Flat());
    var size := doc.ChunkSize(doc.root);
    assert NodeOk(doc.Shot(), doc.root, doc.root, NIL);
    var added := LinesFor(doc, text, estimate);
    InsertTexts(doc, 0, added, text, estimate);
    RemoveTexts(doc, |text|, size);
    OnlyNew(t, text);
    OnlyNew(was, Estimates(text, estimate));
  }

  lemma OnlyNew<T>(s: seq<T>, x: seq<T>)
    ensures Cut(Splice(s, 0, x), |x|, |s|) == x
  {}
}
