/** The view of codemirror.js: a list of the line objects in part of the document, kept in step with changes. */
module View {
  import opened Seqs
  import opened Chunks
  import opened ChunkInsert
  import opened LineTree
  import opened LineLookup
  import opened Options
  import opened Text
  import U = UpdateDoc

  /** One line in the view; once it is drawn it has a node with the text of that time and a list of what changed since. */
  datatype LineView = LineView(line: Id, size: nat, node: Option<string>, changes: seq<string>)

  datatype Index = At(index: nat) | NotInView

  ghost function Shown(view: seq<LineView>): (r: seq<Id>)
    ensures |r| == |view|
  {
    seq(|view|, i requires 0 <= i < |view| => view[i].line)
  }

  lemma ShownAppend(a: seq<LineView>, b: seq<LineView>)
    ensures Shown(a + b) == Shown(a) + Shown(b)
  {}

  lemma ShownSlice(view: seq<LineView>, i: nat, j: nat)
    requires i <= j <= |view|
    ensures Shown(view[i..j]) == Shown(view)[i..j]
  {}

  predicate Single(view: seq<LineView>) {
    forall i :: 0 <= i < |view| ==> view[i].size == 1
  }

  /** The view lists exactly the line objects from `from` to `to`. */
  ghost predicate Covers(view: seq<LineView>, from: int, to: int, ids: seq<Id>) {
    0 <= from <= to <= |ids| && Shown(view) == ids[from..to]
  }

  // ------------------------------------------------------------------ what is drawn

  /** The views of lines that are not drawn yet. */
  predicate Undrawn(view: seq<LineView>) {
    forall i :: 0 <= i < |view| ==> view[i].node == None && view[i].changes == []
  }

  /** A node shows the text of its line, unless there is a mark that this text has changed. */
  predicate IsCurrent(v: LineView, text: string) {
    v.node.Some? && "text" !in v.changes ==> v.node.value == text
  }

  predicate AllCurrent(view: seq<LineView>, from: int, t: seq<string>) {
    forall i :: 0 <= i < |view| && 0 <= from + i < |t| ==> IsCurrent(view[i], t[from + i])
  }

  /** The lines from `from` on are on the screen with their present text. */
  predicate Shows(view: seq<LineView>, from: nat, t: seq<string>) {
    from + |view| <= |t| && forall i :: 0 <= i < |view| ==> view[i].node == Some(t[from + i]) && view[i].changes == []
  }

  /** Where a line that a change left alone is afterwards. */
  function Moved(n: int, from: nat, lendiff: int): int {
    if n < from then n else n + lendiff
  }

  predicate IsViewOf(v: LineView, n: int, view: seq<LineView>, viewFrom: int) {
    0 <= n - viewFrom < |view| && v == view[n - viewFrom]
  }

  /** Lines that a change left alone keep their views. */
  ghost predicate Kept(was: seq<LineView>, wasFrom: int, now: seq<LineView>, nowFrom: int, from: nat, to: nat, lendiff: int) {
    forall i :: 0 <= i < |was| && !(from <= wasFrom + i < to) ==> IsViewOf(was[i], Moved(wasFrom + i, from, lendiff), now, nowFrom)
  }

  /** The view of line n after a change: as before for a line that was left alone, and not drawn for another one. */
  ghost predicate IsCarried(v: LineView, n: int, was: seq<LineView>, wasFrom: int, from: nat, to: nat, lendiff: int) {
    if n < from then IsViewOf(v, n, was, wasFrom)
    else if n < to + lendiff then v.node == None && v.changes == []
    else IsViewOf(v, n - lendiff, was, wasFrom)
  }

  ghost predicate OnlyCarried(was: seq<LineView>, wasFrom: int, now: seq<LineView>, nowFrom: int, from: nat, to: nat, lendiff: int) {
    forall i :: 0 <= i < |now| ==> IsCarried(now[i], nowFrom + i, was, wasFrom, from, to, lendiff)
  }

  ghost predicate Carried(was: seq<LineView>, wasFrom: int, now: seq<LineView>, nowFrom: int, from: nat, to: nat, lendiff: int) {
    && Kept(was, wasFrom, now, nowFrom, from, to, lendiff)
    && OnlyCarried(was, wasFrom, now, nowFrom, from, to, lendiff)
  }

  /** What is left of a view below a change, above one, around one where its lines are undrawn, and apart from one. */
  lemma CarriedBelow(was: seq<LineView>, wasFrom: int, from: nat, to: nat, lendiff: int)
    requires from <= wasFrom <= to <= wasFrom + |was| && from <= to + lendiff
    ensures Carried(was, wasFrom, was[to - wasFrom..], to + lendiff, from, to, lendiff)
  {
  }

  lemma CarriedAbove(was: seq<LineView>, wasFrom: int, from: nat, to: nat, lendiff: int)
    requires wasFrom <= from <= wasFrom + |was| <= to
    ensures Carried(was, wasFrom, was[..from - wasFrom], wasFrom, from, to, lendiff)
  {
  }

  lemma CarriedWhole(was: seq<LineView>, wasFrom: int, from: nat, to: nat, lendiff: int)
    requires from <= to && from <= to + lendiff
    ensures wasFrom + |was| <= from ==> Carried(was, wasFrom, was, wasFrom, from, to, lendiff)
    ensures to <= wasFrom ==> Carried(was, wasFrom, was, wasFrom + lendiff, from, to, lendiff)
    ensures from <= wasFrom && wasFrom + |was| <= to ==> Carried(was, wasFrom, [], 0, from, to, lendiff)
  {
  }

  lemma CarriedAround(was: seq<LineView>, wasFrom: int, built: seq<LineView>, from: nat, to: nat, lendiff: int)
    requires wasFrom <= from <= to <= wasFrom + |was| && |built| == to + lendiff - from && Undrawn(built)
    ensures Carried(was, wasFrom, was[..from - wasFrom] + built + was[to - wasFrom..], wasFrom, from, to, lendiff)
  {
  }

  /** A view adjusted to other lines keeps what it shows of them, and draws nothing else yet. */
  predicate IsAdjusted(was: seq<LineView>, wasFrom: int, now: seq<LineView>, nowFrom: int) {
    forall i :: 0 <= i < |now| ==>
      if wasFrom <= nowFrom + i < wasFrom + |was| then IsViewOf(now[i], nowFrom + i, was, wasFrom)
      else now[i].node == None && now[i].changes == []
  }

  lemma {:induction false} AdjustedCurrent(was: seq<LineView>, wasFrom: int, now: seq<LineView>, nowFrom: int, t: seq<string>)
    requires AllCurrent(was, wasFrom, t) && IsAdjusted(was, wasFrom, now, nowFrom)
    ensures AllCurrent(now, nowFrom, t)
  {
    forall i | 0 <= i < |now| && 0 <= nowFrom + i < |t| ensures IsCurrent(now[i], t[nowFrom + i]) {
      if wasFrom <= nowFrom + i < wasFrom + |was| {
        assert IsCurrent(was[nowFrom + i - wasFrom], t[wasFrom + (nowFrom + i - wasFrom)]);
      }
    }
  }

  lemma {:induction false} CarriedCurrent(was: seq<LineView>, wasFrom: int, t: seq<string>, now: seq<LineView>, nowFrom: int, u: seq<string>,
                                          from: nat, to: nat, lendiff: int)
    requires AllCurrent(was, wasFrom, t) && Carried(was, wasFrom, now, nowFrom, from, to, lendiff) && Registered(t, u, from, to, lendiff)
    ensures AllCurrent(now, nowFrom, u)
  {
    hide Kept;
    forall i | 0 <= i < |now| && 0 <= nowFrom + i < |u| ensures IsCurrent(now[i], u[nowFrom + i]) {
      var n := nowFrom + i;
      if n < from {
        assert u[..from][n] == t[..from][n] && IsViewOf(now[i], n, was, wasFrom);
        assert IsCurrent(was[n - wasFrom], t[wasFrom + (n - wasFrom)]);
      } else if n >= to + lendiff {
        assert u[to + lendiff..][n - to - lendiff] == t[to..][n - to - lendiff] && IsViewOf(now[i], n - lendiff, was, wasFrom);
        assert IsCurrent(was[n - lendiff - wasFrom], t[wasFrom + (n - lendiff - wasFrom)]);
      }
    }
  }

  /** In the view of a line, a mark is added unless there is no node or there is one. */
  ghost predicate IsMarked(was: seq<LineView>, now: seq<LineView>, from: int, line: nat, mark: string) {
    && |now| == |was|
    && forall i :: 0 <= i < |was| ==>
      now[i] == if from + i != line || was[i].node == None || mark in was[i].changes then was[i]
        else was[i].(changes := was[i].changes + [mark])
  }

  lemma {:induction false} MarkedCurrent(was: seq<LineView>, now: seq<LineView>, from: int, line: nat, t: seq<string>, u: seq<string>)
    requires AllCurrent(was, from, t) && IsMarked(was, now, from, line, "text") && U.KeptAround(t, u, line, line + 1, 0)
    ensures AllCurrent(now, from, u)
  {
    forall i | 0 <= i < |now| && 0 <= from + i < |u| ensures IsCurrent(now[i], u[from + i]) {
      assert IsCurrent(was[i], t[from + i]);
      if from + i < line {
        assert u[..line][from + i] == t[..line][from + i];
      } else if from + i > line {
        assert u[line + 1..][from + i - line - 1] == t[line + 1..][from + i - line - 1];
      }
    }
  }

  /** The texts of the lines around a change stay as they are. */
  lemma TextKept(t: Lines, c: Change)
    requires Fits(t, c)
    ensures U.KeptAround(t, Replaced(t, c), c.from.line, c.to.line + 1, U.Lendiff(c))
  {
  }

  /** What holds between redraws: after a shorter document was set in full, the view may lie behind its end. */
  ghost predicate Tracks(view: seq<LineView>, from: int, to: int, ids: seq<Id>) {
    && Single(view) && 0 <= from <= to && |view| == to - from
    && (Covers(view, from, to, ids) || |ids| <= from)
  }

  // ------------------------------------------------------------------ pieces of a list of which the ends are kept

  lemma {:induction false} KeptBefore(was: seq<Id>, now: seq<Id>, from: nat, to: nat, lendiff: int, i: nat, j: nat)
    requires U.KeptAround(was, now, from, to, lendiff) && i <= j <= from
    ensures j <= |now| && now[i..j] == was[i..j]
  {
    TakeThenSlice(now, from, i, j);
    TakeThenSlice(was, from, i, j);
  }

  lemma {:induction false} KeptBehind(was: seq<Id>, now: seq<Id>, from: nat, to: nat, lendiff: int, i: nat, j: nat)
    requires U.KeptAround(was, now, from, to, lendiff) && to <= i <= j <= |was|
    ensures 0 <= i + lendiff <= j + lendiff <= |now| && now[i + lendiff..j + lendiff] == was[i..j]
  {
    assert i + lendiff == (to + lendiff) + (i - to) && j + lendiff == (to + lendiff) + (j - to);
    DropThenSlice(now, to + lendiff, i - to, j - to);
    assert was[i..j] == was[to..][i - to..j - to];
  }

  lemma {:induction false} CoversPart(view: seq<LineView>, from: nat, to: nat, ids: seq<Id>, i: nat, j: nat)
    requires Covers(view, from, to, ids) && from <= i <= j <= to
    ensures Shown(view[i - from..j - from]) == ids[i..j]
  {
    assert |view| == to - from;
    ShownSlice(view, i - from, j - from);
    SliceOfSlice(ids, from, to, i, j);
  }

  lemma {:induction false} CoversJoined(a: seq<LineView>, b: seq<LineView>, from: nat, mid: nat, to: nat, ids: seq<Id>)
    requires Covers(a, from, mid, ids) && Covers(b, mid, to, ids)
    ensures Covers(a + b, from, to, ids)
  {
    ShownAppend(a, b);
    assert ids[from..mid] + ids[mid..to] == ids[from..to];
  }

  /** The part of a view above a change, and the part below it at its new place. */
  lemma {:induction false} TopKept(view: seq<LineView>, viewFrom: nat, viewTo: nat, was: seq<Id>, now: seq<Id>,
                from: nat, to: nat, lendiff: int, end: nat)
    requires Covers(view, viewFrom, viewTo, was) && U.KeptAround(was, now, from, to, lendiff)
    requires viewFrom <= end <= viewTo && end <= from
    ensures |view| == viewTo - viewFrom && Covers(view[..end - viewFrom], viewFrom, end, now)
  {
    CoversPart(view, viewFrom, viewTo, was, viewFrom, end);
    KeptBefore(was, now, from, to, lendiff, viewFrom, end);
  }

  lemma {:induction false} BottomKept(view: seq<LineView>, viewFrom: nat, viewTo: nat, was: seq<Id>, now: seq<Id>,
                   from: nat, to: nat, lendiff: int, start: nat)
    requires Covers(view, viewFrom, viewTo, was) && U.KeptAround(was, now, from, to, lendiff)
    requires viewFrom <= start <= viewTo && to <= start
    ensures |view| == viewTo - viewFrom && Covers(view[start - viewFrom..], start + lendiff, viewTo + lendiff, now)
  {
    CoversPart(view, viewFrom, viewTo, was, start, viewTo);
    assert view[start - viewFrom..] == view[start - viewFrom..viewTo - viewFrom];
    KeptBehind(was, now, from, to, lendiff, start, viewTo);
  }

  /** What is shown around a change, with its lines built anew in the middle. */
  lemma {:induction false} MiddleReplaced(view: seq<LineView>, viewFrom: nat, viewTo: nat, was: seq<Id>, now: seq<Id>,
                                          from: nat, to: nat, lendiff: int, built: seq<LineView>)
    requires Covers(view, viewFrom, viewTo, was) && U.KeptAround(was, now, from, to, lendiff)
    requires viewFrom <= from <= to <= viewTo && from <= to + lendiff && Covers(built, from, to + lendiff, now)
    ensures |view| == viewTo - viewFrom
    ensures Covers(view[..from - viewFrom] + built + view[to - viewFrom..], viewFrom, viewTo + lendiff, now)
  {
    TopKept(view, viewFrom, viewTo, was, now, from, to, lendiff, from);
    BottomKept(view, viewFrom, viewTo, was, now, from, to, lendiff, to);
    CoversJoined(view[..from - viewFrom], built, viewFrom, from, to + lendiff, now);
    CoversJoined(view[..from - viewFrom] + built, view[to - viewFrom..], viewFrom, to + lendiff, viewTo + lendiff, now);
  }

  /** What a change may say of itself: the lines it left alone, or, for a full change, the whole new document. */
  ghost predicate Registered<T>(was: seq<T>, now: seq<T>, from: nat, to: nat, lendiff: int) {
    U.KeptAround(was, now, from, to, lendiff) || (from == 0 && to == |now| && lendiff == 0)
  }

  lemma {:induction false} AfterKept(view: seq<LineView>, viewFrom: int, viewTo: int, was: seq<Id>, now: seq<Id>, from: nat, to: nat, lendiff: int)
    requires Tracks(view, viewFrom, viewTo, was) && Registered(was, now, from, to, lendiff) && viewTo <= from
    ensures Covers(view, viewFrom, viewTo, now)
  {
    if Covers(view, viewFrom, viewTo, was) && U.KeptAround(was, now, from, to, lendiff) {
      KeptBefore(was, now, from, to, lendiff, viewFrom, viewTo);
    }
  }

  lemma {:induction false} BeforeKept(view: seq<LineView>, viewFrom: int, viewTo: int, was: seq<Id>, now: seq<Id>, from: nat, to: nat, lendiff: int)
    requires Tracks(view, viewFrom, viewTo, was) && Registered(was, now, from, to, lendiff) && to <= viewFrom
    ensures Tracks(view, viewFrom + lendiff, viewTo + lendiff, now)
    ensures Covers(view, viewFrom, viewTo, was) && U.KeptAround(was, now, from, to, lendiff) ==>
      Covers(view, viewFrom + lendiff, viewTo + lendiff, now)
  {
    if Covers(view, viewFrom, viewTo, was) && U.KeptAround(was, now, from, to, lendiff) {
      KeptBehind(was, now, from, to, lendiff, viewFrom, viewTo);
    }
  }

  // ------------------------------------------------------------------ the display

  class Display {
    const doc: Document
    var viewFrom: int
    var viewTo: int
    var view: seq<LineView>

    /** The view keeps to the line objects of a document that were in the list `ids`. */
    ghost predicate Follows(ids: seq<Id>)
      reads this
    {
      Tracks(view, viewFrom, viewTo, ids)
    }

    ghost predicate Valid()
      reads this, doc
    {
      doc.Valid() && Follows(U.Ids(doc.Flat()))
    }

    /** Every line of the view is the line object of the document at its place, and none is missing. */
    ghost predicate UpToDate()
      requires doc.Valid()
      reads this, doc
    {
      Covers(view, viewFrom, viewTo, U.Ids(doc.Flat()))
    }

    /** No node shows an old text without a mark. */
    ghost predicate Current()
      requires doc.Valid()
      reads this, doc
    {
      AllCurrent(view, viewFrom, U.TextOf(doc))
    }

    constructor (doc: Document)
      requires doc.Valid()
      ensures this.doc == doc && Valid() && UpToDate() && Current() && view == []
    {
      this.doc := doc;
      viewFrom, viewTo, view := 0, 0, [];
    }

    method ResetView()
      requires doc.Valid()
      modifies this
      ensures Valid() && UpToDate() && view == [] && viewFrom == viewTo == 0
    {
      viewFrom, viewTo, view := 0, 0, [];
    }

    method BuildViewArray(from: nat, to: nat) returns (built: seq<LineView>)
      requires doc.Valid() && from <= to <= |doc.Flat()|
      ensures Single(built) && Undrawn(built) && Covers(built, from, to, U.Ids(doc.Flat()))
    {
      built := [];
      var pos := from;
      while pos < to
        invariant from <= pos <= to && Single(built) && Undrawn(built) && Covers(built, from, pos, U.Ids(doc.Flat()))
      {
        var found := GetLine(doc, pos);
        var view := LineView(found.line, 1, None, []);
        assert Shown([view]) == U.Ids(doc.Flat())[pos..pos + view.size];
        CoversJoined(built, [view], from, pos, pos + view.size, U.Ids(doc.Flat()));
        pos := pos + view.size;
        built := built + [view];
      }
    }

    method FindViewIndex(n: int) returns (r: Index)
      requires Single(view) && |view| == viewTo - viewFrom
      ensures r == (if viewFrom <= n < viewTo then At(n - viewFrom) else NotInView)
    {
      if n >= viewTo {
        return NotInView;
      }
      var left := n - viewFrom;
      if left < 0 {
        return NotInView;
      }
      for i := 0 to |view|
        invariant left == n - viewFrom - i && left >= 0
      {
        left := left - view[i].size;
        if left < 0 {
          return At(i);
        }
      }
      assert false;
    }

    /** Tells the view of a change that has been made: `from` and `to` count lines of the list before it, `was`. */
    method RegChange(from: nat, to: nat, lendiff: int, ghost was: seq<Id>)
      requires doc.Valid() && Follows(was) && Registered(was, U.Ids(doc.Flat()), from, to, lendiff)
      modifies this
      ensures Valid()
      ensures U.KeptAround(was, U.Ids(doc.Flat()), from, to, lendiff) && Covers(old(view), old(viewFrom), old(viewTo), was) ==> UpToDate()
      ensures from == 0 && to == |doc.Flat()| && lendiff == 0 ==> (UpToDate() <==> old(viewTo) <= to)
      ensures Carried(old(view), old(viewFrom), view, viewFrom, from, to, lendiff)
    {
      hide Carried;
      CarriedWhole(view, viewFrom, from, to, lendiff);
      if from >= viewTo {
        AfterKept(view, viewFrom, viewTo, was, U.Ids(doc.Flat()), from, to, lendiff);
      } else if to <= viewFrom {
        BeforeKept(view, viewFrom, viewTo, was, U.Ids(doc.Flat()), from, to, lendiff);
        viewFrom := viewFrom + lendiff;
        viewTo := viewTo + lendiff;
      } else if from <= viewFrom && to >= viewTo {
        ResetView();
      } else if from <= viewFrom {
        TopOverlap(from, to, lendiff, was);
      } else if to >= viewTo {
        BottomOverlap(from, to, lendiff, was);
      } else {
        GapInTheMiddle(from, to, lendiff, was);
      }
    }

    method TopOverlap(from: nat, to: nat, lendiff: int, ghost was: seq<Id>)
      requires doc.Valid() && Follows(was) && Registered(was, U.Ids(doc.Flat()), from, to, lendiff)
      requires from <= viewFrom < to < viewTo
      modifies this
      ensures Valid() && (U.KeptAround(was, U.Ids(doc.Flat()), from, to, lendiff) ==> UpToDate())
      ensures viewTo == old(viewTo) + lendiff && Carried(old(view), old(viewFrom), view, viewFrom, from, to, lendiff)
    {
      hide Carried;
      var cut := FindViewIndex(to);
      CarriedBelow(view, viewFrom, from, to, lendiff);
      if U.KeptAround(was, U.Ids(doc.Flat()), from, to, lendiff) {
        BottomKept(view, viewFrom, viewTo, was, U.Ids(doc.Flat()), from, to, lendiff, to);
      }
      view := view[cut.index..];
      viewFrom := to + lendiff;
      viewTo := viewTo + lendiff;
    }

    method BottomOverlap(from: nat, to: nat, lendiff: int, ghost was: seq<Id>)
      requires doc.Valid() && Follows(was) && U.KeptAround(was, U.Ids(doc.Flat()), from, to, lendiff)
      requires viewFrom < from < viewTo <= to
      modifies this
      ensures Valid() && UpToDate() && Carried(old(view), old(viewFrom), view, viewFrom, from, to, lendiff)
    {
      hide Carried;
      var cut := FindViewIndex(from);
      CarriedAbove(view, viewFrom, from, to, lendiff);
      TopKept(view, viewFrom, viewTo, was, U.Ids(doc.Flat()), from, to, lendiff, from);
      view := view[..cut.index];
      viewTo := from;
    }

    method GapInTheMiddle(from: nat, to: nat, lendiff: int, ghost was: seq<Id>)
      requires doc.Valid() && Follows(was) && U.KeptAround(was, U.Ids(doc.Flat()), from, to, lendiff)
      requires viewFrom < from && to < viewTo
      modifies this
      ensures Valid() && UpToDate() && Carried(old(view), old(viewFrom), view, viewFrom, from, to, lendiff)
    {
      hide Shown, Carried;
      ghost var now := U.Ids(doc.Flat());
      var cutTop := FindViewIndex(from);
      var cutBot := FindViewIndex(to);
      var built := BuildViewArray(from, to + lendiff);
      MiddleReplaced(view, viewFrom, viewTo, was, now, from, to, lendiff, built);
      CarriedAround(view, viewFrom, built, from, to, lendiff);
      view := view[..cutTop.index] + built + view[cutBot.index..];
      viewTo := viewTo + lendiff;
    }

    /** A change inside one line: its view, if it is drawn, is marked, and nothing else is. */
    method RegLineChange(line: nat, type_: string)
      requires Valid() && line < |doc.Flat()|
      modifies this`view
      ensures Valid() && Shown(view) == old(Shown(view)) && (old(UpToDate()) ==> UpToDate())
      ensures IsMarked(old(view), view, viewFrom, line, type_)
    {
      if line < viewFrom || line >= viewTo {
        return;
      }
      var found := FindViewIndex(line);
      var lineView := view[found.index];
      if lineView.node == None {
        return;
      }
      if type_ !in lineView.changes {
        ghost var was := view;
        view := view[found.index := lineView.(changes := lineView.changes + [type_])];
        assert Shown(view) == Shown(was);
      }
    }

    /** adjustView: whatever the view was, it then shows exactly the lines asked for, with what was drawn of them. */
    method AdjustView(from: nat, to: nat)
      requires Valid() && from <= to <= |doc.Flat()|
      modifies this
      ensures Valid() && UpToDate() && viewFrom == from && viewTo == to
      ensures IsAdjusted(old(view), old(viewFrom), view, viewFrom)
    {
      if view == [] || from >= viewTo || to <= viewFrom {
        view := BuildViewArray(from, to);
        viewFrom := from;
      } else {
        AdjustTop(from);
        AdjustBottom(to);
      }
      viewTo := to;
    }

    method AdjustTop(from: nat)
      requires Valid() && UpToDate() && from < viewTo
      modifies this
      ensures Valid() && UpToDate() && viewFrom == from && viewTo == old(viewTo)
      ensures IsAdjusted(old(view), old(viewFrom), view, viewFrom)
    {
      ghost var ids := U.Ids(doc.Flat());
      if viewFrom > from {
        var built := BuildViewArray(from, viewFrom);
        CoversJoined(built, view, from, viewFrom, viewTo, ids);
        view := built + view;
      } else if viewFrom < from {
        var cut := FindViewIndex(from);
        CoversPart(view, viewFrom, viewTo, ids, from, viewTo);
        assert view[cut.index..] == view[cut.index..viewTo - viewFrom];
        view := view[cut.index..];
      }
      viewFrom := from;
    }

    /** The list of views up to `to`; its end is noted by the caller. */
    method AdjustBottom(to: nat)
      requires Valid() && UpToDate() && viewFrom <= to <= |doc.Flat()|
      modifies this`view
      ensures Single(view) && Covers(view, viewFrom, to, U.Ids(doc.Flat()))
      ensures IsAdjusted(old(view), viewFrom, view, viewFrom)
    {
      ghost var ids := U.Ids(doc.Flat());
      if viewTo < to {
        var built := BuildViewArray(viewTo, to);
        CoversJoined(view, built, viewFrom, viewTo, to, ids);
        view := view + built;
      } else if viewTo > to {
        var cut := FindViewIndex(to);
        CoversPart(view, viewFrom, viewTo, ids, viewFrom, to);
        view := view[..cut.index];
      }
    }

    /** What is not drawn gets a node, and what has changed another one. */
    method DrawLine(v: LineView, ghost n: nat) returns (w: LineView)
      requires doc.Valid() && n < |doc.Flat()| && v.line == doc.Flat()[n].line
      ensures w == v.(node := w.node, changes := []) && (IsCurrent(v, U.TextOf(doc)[n]) ==> w.node == Some(U.TextOf(doc)[n]))
    {
      U.FlatInLines(doc);
      w := v.(changes := []);
      if v.node == None || "text" in v.changes {
        w := w.(node := Some(doc.lines[v.line].text));
      }
    }

    /** patchDisplay: the view that was adjusted is drawn; each line is then on the screen with its present text. */
    method PatchDisplay()
      requires Valid() && UpToDate() && Current()
      modifies this`view
      ensures Valid() && UpToDate() && |view| == |old(view)| && Shows(view, viewFrom, U.TextOf(doc))
    {
      ghost var was, t := view, U.TextOf(doc);
      for i := 0 to |view|
        invariant |view| == |was| && view[i..] == was[i..]
        invariant forall k :: 0 <= k < i ==> view[k] == was[k].(node := Some(t[viewFrom + k]), changes := [])
      {
        assert view[i] == view[i..][0] == was[i] && Shown(was)[i] == U.Ids(doc.Flat())[viewFrom..viewTo][i];
        assert IsCurrent(was[i], t[viewFrom + i]);
        var drawn := DrawLine(view[i], viewFrom + i);
        assert view[i..][1..] == view[i + 1..] && was[i..][1..] == was[i + 1..];
        view := view[i := drawn];
      }
      assert Shown(view) == Shown(was);
    }

    /** The two steps of updateDisplayIfNeeded: the view is adjusted to the lines asked for, and drawn. */
    method Redraw(from: nat, to: nat)
      requires Valid() && Current() && from <= to <= |doc.Flat()|
      modifies this
      ensures Valid() && UpToDate() && Current() && viewFrom == from && viewTo == to && |view| == to - from
      ensures Shows(view, from, U.TextOf(doc))
    {
      AdjustView(from, to);
      AdjustedCurrent(old(view), old(viewFrom), view, viewFrom, U.TextOf(doc));
      PatchDisplay();
    }

    // ---------------------------------------------------------------- the document and its view together

    /** What the end of makeChangeSingleDocInEditor tells the view of a change, not full, that has been made. */
    method Register(c: Change, wholeLineBefore: bool, ghost was: seq<Id>, ghost t: Lines)
      requires doc.Valid() && Fits(t, c) && U.TextOf(doc) == Replaced(t, c)
      requires U.KeptAround(was, U.Ids(doc.Flat()), c.from.line, c.to.line + 1, U.Lendiff(c))
      requires c.from.line == c.to.line && |c.text| == 1 && !U.IsWholeLineUpdate(c, wholeLineBefore) ==> U.Ids(doc.Flat()) == was
      requires Follows(was) && AllCurrent(view, viewFrom, t)
      modifies this
      ensures Valid() && Current() && (Covers(old(view), old(viewFrom), old(viewTo), was) ==> UpToDate())
    {
      hide Replaced, U.KeptAround, Carried, AllCurrent, Tracks, Covers;
      TextKept(t, c);
      if c.from.line == c.to.line && |c.text| == 1 && !U.IsWholeLineUpdate(c, wholeLineBefore) {
        RegLineChange(c.from.line, "text");
        MarkedCurrent(old(view), view, viewFrom, c.from.line, t, U.TextOf(doc));
      } else {
        RegChange(c.from.line, c.to.line + 1, |c.text| - (c.to.line - c.from.line) - 1, was);
        CarriedCurrent(old(view), old(viewFrom), t, view, viewFrom, U.TextOf(doc), c.from.line, c.to.line + 1, U.Lendiff(c));
      }
    }

    /** A change of the document that is not full, with its view. */
    method Change(c: Change, wholeLineBefore: bool, estimate: string -> int)
      requires Valid() && Current() && doc.Flat() != [] && Fits(U.TextOf(doc), c)
      modifies this, doc
      ensures Valid() && U.TextOf(doc) == Replaced(old(U.TextOf(doc)), c) && (old(UpToDate()) ==> UpToDate()) && Current()
      ensures U.Measured(old(U.Heights(doc.Flat())), U.Heights(doc.Flat()), U.TextOf(doc), c.from.line, c.to.line + 1, U.Lendiff(c), estimate)
    {
      hide Replaced, U.KeptAround, AllCurrent, Tracks, Covers;
      ghost var was, t := U.Ids(doc.Flat()), U.TextOf(doc);
      U.UpdateDoc(doc, c, wholeLineBefore, estimate);
      Register(c, wholeLineBefore, was, t);
    }

    /** A full change; the view is left wrong exactly when it reached behind the end of the new document. */
    method ChangeFull(text: Lines, estimate: string -> int)
      requires Valid() && Current() && doc.Flat() != []
      modifies this, doc
      ensures Valid() && U.TextOf(doc) == text && (UpToDate() <==> old(viewTo) <= |text|) && Current()
      ensures U.Heights(doc.Flat()) == U.Estimates(text, estimate)
    {
      ghost var was, t := U.Ids(doc.Flat()), U.TextOf(doc);
      U.UpdateFull(doc, text, estimate);
      assert NodeOk(doc.Shot(), doc.root, doc.root, NIL);
      var size := doc.ChunkSize(doc.root);
      RegChange(0, size, 0, was);
      CarriedCurrent(old(view), old(viewFrom), t, view, viewFrom, text, 0, size, 0);
    }
  }

  // ------------------------------------------------------------------ runs

  datatype Event =
    | Edit(c: Change, wholeLineBefore: bool)
    | SetAll(text: Lines)
    | Redraw(from: nat, to: nat)

  predicate Acceptable(t: Lines, e: Event) {
    match e
    case Edit(c, _) => Fits(t, c)
    case SetAll(_) => true
    case Redraw(from, to) => from <= to <= |t|
  }

  function TextAfter(t: Lines, e: Event): Lines
    requires Acceptable(t, e)
  {
    match e
    case Edit(c, _) => Replaced(t, c)
    case SetAll(text) => text
    case Redraw(_, _) => t
  }

  /** Whether the view is right after an event, given whether it was right before it, and how far down it reached. */
  predicate Right(e: Event, before: bool, viewTo: int, after: bool) {
    match e
    case Edit(_, _) => before ==> after
    case SetAll(text) => after == (viewTo <= |text|)
    case Redraw(_, _) => after
  }

  predicate AllAcceptable(t: Lines, run: seq<Event>)
    decreases |run|
  {
    run == [] || (Acceptable(t, run[0]) && AllAcceptable(TextAfter(t, run[0]), run[1..]))
  }

  function TextAfterAll(t: Lines, run: seq<Event>): Lines
    requires AllAcceptable(t, run)
    decreases |run|
  {
    if run == [] then t else TextAfterAll(TextAfter(t, run[0]), run[1..])
  }

  /** A screen with these lines. */
  function OnScreen(t: seq<string>): (r: seq<Option<string>>)
    ensures |r| == |t|
  {
    seq(|t|, i requires 0 <= i < |t| => Some(t[i]))
  }

  ghost function Nodes(view: seq<LineView>): (r: seq<Option<string>>)
    ensures |r| == |view|
  {
    seq(|view|, i requires 0 <= i < |view| => view[i].node)
  }

  /** One time of a run: the text, whether the view was right, how far down it reached, and what was on the screen. */
  datatype Moment = Moment(text: Lines, right: bool, viewTo: nat, screen: seq<Option<string>>)

  ghost function Now(d: Display): Moment
    requires d.Valid() && d.doc.Flat() != []
    reads d, d.doc
  {
    Moment(U.TextOf(d.doc), d.UpToDate(), d.viewTo, Nodes(d.view))
  }

  /** An event changes the text as it says, keeps the view right, and a redraw puts the present text of its lines on the screen. */
  ghost predicate IsStep(e: Event, a: Moment, b: Moment) {
    && Acceptable(a.text, e) && b.text == TextAfter(a.text, e)
    && Right(e, a.right, a.viewTo, b.right)
    && (e.Redraw? ==> b.viewTo == e.to && b.screen == OnScreen(b.text[e.from..e.to]))
  }

  method Perform(d: Display, e: Event, estimate: string -> int)
    requires d.Valid() && d.Current() && d.doc.Flat() != [] && Acceptable(U.TextOf(d.doc), e)
    modifies d, d.doc
    ensures d.Valid() && d.Current() && d.doc.Flat() != [] && U.TextOf(d.doc) == TextAfter(old(U.TextOf(d.doc)), e)
    ensures IsStep(e, old(Now(d)), Now(d))
  {
    hide AllCurrent, Tracks, Covers, Replaced;
    match e
    case Edit(c, wholeLineBefore) =>
      d.Change(c, wholeLineBefore, estimate);
    case SetAll(text) =>
      d.ChangeFull(text, estimate);
    case Redraw(from, to) =>
      d.Redraw(from, to);
  }

  ghost predicate StepsOk(run: seq<Event>, trace: seq<Moment>)
    requires |trace| <= |run| + 1
  {
    forall i :: 0 <= i < |trace| - 1 ==> IsStep(run[i], trace[i], trace[i + 1])
  }

  /** Every run: the text that the events make, and after each redraw a screen with the text of that time. */
  method RunEvents(d: Display, run: seq<Event>, estimate: string -> int) returns (ghost trace: seq<Moment>)
    requires d.Valid() && d.Current() && d.doc.Flat() != [] && AllAcceptable(U.TextOf(d.doc), run)
    modifies d, d.doc
    ensures d.Valid() && d.Current() && d.doc.Flat() != [] && U.TextOf(d.doc) == TextAfterAll(old(U.TextOf(d.doc)), run)
    ensures |trace| == |run| + 1 && trace[0] == old(Now(d)) && trace[|run|] == Now(d) && StepsOk(run, trace)
  {
    hide Now, IsStep, AllCurrent, Tracks, Acceptable, TextAfter;
    trace := [Now(d)];
    for n := 0 to |run|
      invariant d.Valid() && d.Current() && d.doc.Flat() != [] && AllAcceptable(U.TextOf(d.doc), run[n..])
      invariant TextAfterAll(U.TextOf(d.doc), run[n..]) == TextAfterAll(old(U.TextOf(d.doc)), run)
      invariant |trace| == n + 1 && trace[0] == old(Now(d)) && trace[n] == Now(d) && StepsOk(run, trace)
    {
      assert run[n..][0] == run[n] && run[n..][1..] == run[n + 1..];
      Perform(d, run[n], estimate);
      trace := trace + [Now(d)];
    }
    assert run[|run|..] == [];
  }
}
