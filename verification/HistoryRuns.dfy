/** Runs of edits, selections, undos and redos, compared with plain stacks of texts. */
module HistoryRuns {
  import opened Options
  import opened Seqs
  import opened Text
  import opened Selections
  import opened History

  /** A call on the document; times, origins and operations are those of the call. */
  datatype Call =
    | Edit(change: Change, origin: Option<string>, time: int, delay: int, opId: OpId, selAfter: Selection)
    | Undo
    | Redo
    | UndoSelection(time: int, delay: int, opId: OpId)
    | RedoSelection(time: int, delay: int, opId: OpId)
    | Select(sel: Selection, origin: Option<string>, time: int, delay: int, opId: OpId)
    | Mark

  /** What decides whether an edit joins the last event, or a selection the last one. */
  datatype LastEdit = LastEdit(op: OpId, origin: Option<string>, time: int)

  /**
   * The document at one time of a run: the text, the texts to go back and forward to, the text last
   * marked as clean, and the generations of both; and the stacks and marks that the next calls go by.
   */
  datatype Moment = Moment(text: Lines, sel: Selection, past: seq<Lines>, future: seq<Lines>, clean: Lines, generation: nat,
                           cleanGeneration: nat, done: seq<Event>, undone: seq<Event>, depth: Option<nat>, last: LastEdit, lastSel: LastEdit)
  {
    function Source(undo: bool): seq<Event> {
      if undo then done else undone
    }

    function Texts(undo: bool): seq<Lines> {
      if undo then past else future
    }
  }

  /** The document now, if `clean` is the text that it was marked clean with. */
  ghost function MomentOf(d: Doc, clean: Lines): Moment
    reads d
  {
    Moment(d.text, d.sel, d.past, d.future, clean, d.generation, d.cleanGeneration, d.done, d.undone, d.undoDepth,
           LastEdit(d.lastOp, d.lastOrigin, d.lastModTime), LastEdit(d.lastSelOp, d.lastSelOrigin, d.lastSelTime))
  }

  ghost predicate Shows(d: Doc, p: Moment)
    reads d
  {
    d.Valid() && p == MomentOf(d, p.clean) && d.cleanGeneration in d.meaning && d.meaning[d.cleanGeneration] == p.clean
  }

  // ------------------------------------------------------------------ what a call does

  /** An origin ties an edit to one with the same origin before it: "*" always, "+" within the delay. */
  predicate Tied(origin: Option<string>, time: int, delay: int, last: LastEdit) {
    && origin.Some? && origin.value != "" && last.origin == origin
    && (origin.value[0] == '*' || (origin.value[0] == '+' && last.time > time - delay))
  }

  /** Both have an operation, and it is the same. */
  predicate InOneOperation(a: OpId, b: OpId) {
    match (a, b)
    case (Some(i), Some(j)) => i == j
    case _ => false
  }

  /** The edit is undone together with the last event. */
  predicate Merges(c: Call, p: Moment)
    requires c.Edit?
  {
    && (InOneOperation(p.last.op, c.opId) || Tied(c.origin, c.time, c.delay, p.last))
    && Joinable(p.done, SameOp(p.last.op, c.opId))
  }

  predicate Trivial(c: Change) {
    c.text == [""] && c.from == c.to
  }

  /** The history after an edit: the stack of events, and the texts to go back to. */
  ghost predicate EditRecorded(c: Call, p: Moment, q: Moment)
    requires c.Edit? && Fits(p.text, c.change)
  {
    && TopIsSel(q.done) && q.done[|q.done| - 1].sel == c.selAfter
    && var now := q.done[..|q.done| - 1];
       if Merges(c, p) then EventExtended(p.text, c.change, p.done, now) && q.past == p.past
       else IsTrimmed(p.text, EventOnTop(p.text, p.sel, c.change, p.generation, SameOp(p.last.op, c.opId), p.done), p.depth, p.past, now, q.past)
  }

  ghost predicate EditOk(c: Call, p: Moment, q: Moment)
    requires c.Edit?
  {
    Fits(p.text, c.change) &&
    if Trivial(c.change) then q == p
    else
      && q.text == Replaced(p.text, c.change) && q.sel == c.selAfter && q.future == [] && q.undone == []
      && q.clean == p.clean && q.cleanGeneration == p.cleanGeneration && q.depth == p.depth
      && q.last == q.lastSel == LastEdit(c.opId, c.origin, c.time) && EditRecorded(c, p, q)
  }

  /** undo, redo, and with selectionOnly undoSelection and redoSelection, which are told the time and the operation. */
  ghost predicate HistoryOk(undo: bool, selectionOnly: bool, time: int, opId: OpId, p: Moment, q: Moment) {
    && q.clean == p.clean && q.cleanGeneration == p.cleanGeneration && q.depth == p.depth
    && (!selectionOnly ==> FromHistory(undo, q.text, q.past, q.future, p.text, p.past, p.future))
    && if !HasUsable(p.Source(undo), selectionOnly, p.sel) then q == p
       else
         q.last == p.last.(origin := None) &&
         if GoesToSelection(p.Source(undo), selectionOnly, p.sel) then
           && q.text == p.text && q.past == p.past && q.future == p.future && q.generation == p.generation
           && Sel(q.sel) == p.Source(undo)[NewestOther(p.Source(undo), p.sel)] && q.lastSel == LastEdit(opId, None, time)
           && WentToSelection(undo, p.Source(undo), p.Source(!undo), p.sel, q.sel, SameOp(opId, p.lastSel.op), q.done, q.undone)
         else
           && p.Texts(undo) != [] && FromHistory(undo, q.text, q.past, q.future, p.text, p.past, p.future)
           && EventTakenBack(undo, p, q)
  }

  /** The selection recorded below the event is shown; the one above it is kept for the way back, with the generation. */
  ghost predicate EventTakenBack(undo: bool, p: Moment, q: Moment) {
    && TopIsSel(q.Source(undo)) && q.Source(undo)[|q.Source(undo)| - 1].sel == q.sel && q.lastSel == p.lastSel.(origin := None)
    && EventMoved(p.Source(undo), p.Source(!undo), p.sel, p.generation, q.Source(undo), q.Source(!undo))
    && q.generation == p.Source(undo)[NewestEvent(p.Source(undo))].generation
  }

  /** Whether a selection takes the place of the last one: like edits, and if it is similar and soon after it. */
  predicate SelectionTied(c: Call, p: Moment)
    requires c.Select?
  {
    && c.origin.Some? && c.origin.value != "" && p.lastSel.origin == c.origin
    && (|| (p.last.origin == c.origin && p.last.time == p.lastSel.time)
        || c.origin.value[0] == '*'
        || (c.origin.value[0] == '+' && TopIsSel(p.done) && Similar(p.done[|p.done| - 1].sel, c.sel) && c.time <= p.lastSel.time + c.delay))
  }

  /** As many ranges, and something is selected in both of them or in neither. */
  predicate Similar(a: Selection, b: Selection) {
    && |a.ranges| == |b.ranges|
    && ((forall i :: 0 <= i < |a.ranges| ==> a.ranges[i].Empty()) <==> (forall i :: 0 <= i < |b.ranges| ==> b.ranges[i].Empty()))
  }

  /** The selection is recorded, on top or in the place of the last one; selections on top of what can be redone go. */
  ghost predicate SelectOk(c: Call, p: Moment, q: Moment)
    requires c.Select?
  {
    q == p.(sel := c.sel, done := WithSel(p.done, c.sel, InOneOperation(c.opId, p.lastSel.op) || SelectionTied(c, p)), undone := WithoutSels(p.undone),
            lastSel := LastEdit(c.opId, c.origin, c.time))
  }

  /** markClean; the next edit makes a new event. */
  ghost predicate MarkOk(p: Moment, q: Moment) {
    q == p.(clean := p.text, cleanGeneration := p.generation, last := LastEdit(None, None, p.last.time), lastSel := p.lastSel.(op := None))
  }

  ghost predicate StepOk(c: Call, p: Moment, q: Moment) {
    match c
    case Edit(_, _, _, _, _, _) => EditOk(c, p, q)
    case Undo => HistoryOk(true, false, 0, None, p, q)
    case Redo => HistoryOk(false, false, 0, None, p, q)
    case UndoSelection(time, _, opId) => HistoryOk(true, true, time, opId, p, q)
    case RedoSelection(time, _, opId) => HistoryOk(false, true, time, opId, p, q)
    case Select(_, _, _, _, _) => SelectOk(c, p, q)
    case Mark => MarkOk(p, q)
  }

  // ------------------------------------------------------------------ one call

  /** A range of the text, and selections that overwrite no event. */
  predicate Acceptable(d: Doc, c: Call)
    reads d
  {
    match c
    case Edit(ch, _, _, _, _, _) => Fits(d.text, ch)
    case Select(_, origin, _, _, opId) => !Overwriting(opId, origin, d.lastSelOp, d.done)
    case UndoSelection(_, _, opId) => !OverwritingBack(true, d.done, true, d.sel, opId, d.lastSelOp)
    case _ => true
  }

  method Perform(d: Doc, c: Call, ghost p: Moment) returns (ghost q: Moment)
    requires Shows(d, p) && Acceptable(d, c)
    modifies d
    ensures Shows(d, q) && StepOk(c, p, q) && d.MeaningKept()
  {
    hide Shows, EditOk, HistoryOk, SelectOk, MarkOk;
    match c
    case Edit(_, _, _, _, _, _) => q := PerformEdit(d, c, p);
    case Undo => q := PerformBack(d, true, false, 0, 0, None, p);
    case Redo => q := PerformBack(d, false, false, 0, 0, None, p);
    case UndoSelection(time, delay, opId) => q := PerformBack(d, true, true, time, delay, opId, p);
    case RedoSelection(time, delay, opId) => q := PerformBack(d, false, true, time, delay, opId, p);
    case Select(_, _, _, _, _) => q := PerformSelect(d, c, p);
    case Mark => q := PerformMark(d, p);
  }

  method PerformMark(d: Doc, ghost p: Moment) returns (ghost q: Moment)
    requires Shows(d, p)
    modifies d
    ensures Shows(d, q) && MarkOk(p, q) && d.MeaningKept()
  {
    d.MarkClean();
    q := p.(clean := p.text, cleanGeneration := p.generation, last := LastEdit(None, None, p.last.time), lastSel := p.lastSel.(op := None));
  }

  method PerformEdit(d: Doc, c: Call, ghost p: Moment) returns (ghost q: Moment)
    requires Shows(d, p) && c.Edit? && Fits(d.text, c.change)
    modifies d
    ensures Shows(d, q) && EditOk(c, p, q) && d.MeaningKept()
  {
    hide Replaced, Fits, EventExtended, IsTrimmed;
    var merged := d.MakeChange(c.change, c.origin, c.time, c.delay, c.opId, c.selAfter);
    q := MomentOf(d, p.clean);
  }

  method PerformBack(d: Doc, undo: bool, selectionOnly: bool, time: int, delay: int, opId: OpId, ghost p: Moment) returns (ghost q: Moment)
    requires Shows(d, p) && !OverwritingBack(undo, d.Source(undo), selectionOnly, d.sel, opId, d.lastSelOp)
    modifies d
    ensures Shows(d, q) && HistoryOk(undo, selectionOnly, time, opId, p, q) && d.MeaningKept()
  {
    hide HistoryOk, OverwritingBack;
    Back(d, undo, selectionOnly, time, delay, opId, p.clean);
    q := MomentOf(d, p.clean);
  }

  /** One call of makeChangeFromHistory. */
  method Back(d: Doc, undo: bool, selectionOnly: bool, time: int, delay: int, opId: OpId, ghost clean: Lines)
    requires d.Valid() && !OverwritingBack(undo, d.Source(undo), selectionOnly, d.sel, opId, d.lastSelOp)
    modifies d
    ensures d.Valid() && HistoryOk(undo, selectionOnly, time, opId, old(MomentOf(d, clean)), MomentOf(d, clean)) && d.meaning == old(d.meaning)
    ensures d.cleanGeneration == old(d.cleanGeneration)
  {
    hide HasUsable, NewestOther, OverwritingBack, Usable, Numbered, DoneOk, GoesToSelection, WentToSelection, EventMoved, NewestEvent, FromHistory;
    d.MakeChangeFromHistory(undo, selectionOnly, time, delay, opId);
  }

  method PerformSelect(d: Doc, c: Call, ghost p: Moment) returns (ghost q: Moment)
    requires Shows(d, p) && c.Select? && !Overwriting(c.opId, c.origin, d.lastSelOp, d.done)
    modifies d
    ensures Shows(d, q) && SelectOk(c, p, q) && d.MeaningKept()
  {
    d.SetSelection(c.sel, c.origin, true, c.time, c.delay, c.opId);
    q := p.(sel := c.sel, done := d.done, undone := d.undone, lastSel := LastEdit(c.opId, c.origin, c.time));
  }

  /** An event that has moved over and comes back: the selection that it was left with, and its generation. */
  lemma {:induction false} MovedBack(source0: seq<Event>, dest0: seq<Event>, current: Selection, generation: nat, source: seq<Event>, dest: seq<Event>,
                     later: Selection, other: nat, source': seq<Event>, dest': seq<Event>)
    requires EventMoved(source0, dest0, current, generation, source, dest) && EventMoved(dest, source, later, other, source', dest')
    ensures dest[NewestEvent(dest)].generation == generation
    ensures TopIsSel(source') && source'[|source'| - 1].sel == SelAfter(source0, current)
  {
    hide MovedOver, SelAfter;
    assert NewestEvent(dest) == |dest| - 1;
  }

  /** With a text to go back to, or forward, an event is taken back. */
  lemma {:induction false} TakenBack(undo: bool, p: Moment, q: Moment)
    requires HistoryOk(undo, false, 0, None, p, q) && p.Texts(undo) != []
    ensures FromHistory(undo, q.text, q.past, q.future, p.text, p.past, p.future) && EventTakenBack(undo, p, q)
  {
    hide HasUsable, NewestOther, EventTakenBack, WentToSelection;
  }

  /** Redo takes undo back, and shows the selection that was recorded after the edit, or was there. */
  lemma {:induction false} BackAndForth(p: Moment, q: Moment, r: Moment)
    requires HistoryOk(true, false, 0, None, p, q) && HistoryOk(false, false, 0, None, q, r) && p.past != []
    ensures r.text == p.text && r.past == p.past && r.future == p.future && r.generation == p.generation && r.sel == SelAfter(p.done, p.sel)
  {
    hide HistoryOk, EventMoved, SelAfter, NewestEvent, TopIsSel;
    TakenBack(true, p, q);
    TakenBack(false, q, r);
    TextsBack(p, q, r);
    MovedBack(p.done, p.undone, p.sel, p.generation, q.done, q.undone, q.sel, q.generation, r.undone, r.done);
  }

  lemma {:induction false} TextsBack(p: Moment, q: Moment, r: Moment)
    requires p.past != [] && FromHistory(true, q.text, q.past, q.future, p.text, p.past, p.future)
    requires FromHistory(false, r.text, r.past, r.future, q.text, q.past, q.future)
    ensures r.text == p.text && r.past == p.past && r.future == p.future
  {
    assert p.past == p.past[..|p.past| - 1] + [p.past[|p.past| - 1]];
  }

  method UndoThenRedo(d: Doc)
    requires d.Valid() && d.past != []
    modifies d
    ensures d.Valid() && d.text == old(d.text) && d.past == old(d.past) && d.future == old(d.future) && d.generation == old(d.generation)
    ensures d.sel == SelAfter(old(d.done), old(d.sel))
  {
    hide HistoryOk, NewestOther, Usable, Numbered, DoneOk, SelAfter;
    ghost var p := MomentOf(d, [""]);
    Back(d, true, false, 0, 0, None, [""]);
    ghost var q := MomentOf(d, [""]);
    Back(d, false, false, 0, 0, None, [""]);
    BackAndForth(p, q, MomentOf(d, [""]));
  }

  /** After an edit, an undo and a redo there are the text, the generation and the selection of the edit again. */
  lemma {:induction false} EditUndoRedo(c: Call, p: Moment, q: Moment, r: Moment, s: Moment)
    requires c.Edit? && !Trivial(c.change) && StepOk(c, p, q) && StepOk(Undo, q, r) && StepOk(Redo, r, s) && q.past != [] && Honest(q)
    ensures s.text == q.text && s.generation == q.generation && s.sel == c.selAfter && s.past == q.past && s.future == q.future
  {
    hide EditOk, HistoryOk, Honest, SelAfter;
    SelAfterEdit(c, p, q);
    BackAndForth(q, r, s);
  }

  lemma {:induction false} SelAfterEdit(c: Call, p: Moment, q: Moment)
    requires c.Edit? && EditOk(c, p, q) && !Trivial(c.change) && Honest(q) && q.past != []
    ensures SelAfter(q.done, q.sel) == c.selAfter
  {
    var now := q.done[..|q.done| - 1];
    assert now != [] && now[|now| - 1].Changes?;
    assert NewestEvent(q.done) == |now| - 1;
  }

  // ------------------------------------------------------------------ two edits in a row

  /** The event of an edit is one of the two newest entries. */
  lemma {:induction false} EditIsJoinable(c: Call, p: Moment, q: Moment, force: bool)
    requires c.Edit? && EditOk(c, p, q) && !Trivial(c.change) && (p.depth == None || p.depth.value > 1)
    ensures Joinable(q.done, force) && (Honest(q) ==> q.past != [])
  {
    var now := q.done[..|q.done| - 1];
    assert now != [] && now[|now| - 1].Changes? by {
      var grown := EventOnTop(p.text, p.sel, c.change, p.generation, SameOp(p.last.op, c.opId), p.done);
      assert |grown| > 1 && grown[|grown| - 1].Changes?;
    }
    assert q.done[|q.done| - 2].Changes? && Events(now) > 0;
  }

  /**
   * Two edits are taken back by one undo exactly if they were made in one operation or the origin
   * of the second ties it to the first. Otherwise the undo only takes the second one back.
   */
  lemma {:induction false} EditsTogether(first: Call, second: Call, p: Moment, q: Moment, r: Moment, s: Moment)
    requires first.Edit? && !Trivial(first.change) && second.Edit? && !Trivial(second.change)
    requires StepOk(first, p, q) && StepOk(second, q, r) && StepOk(Undo, r, s)
    requires Honest(q) && Honest(r) && (p.depth == None || p.depth.value > 1)
    ensures q.past != [] && s.text ==
      if InOneOperation(first.opId, second.opId) || Tied(second.origin, second.time, second.delay, LastEdit(first.opId, first.origin, first.time))
      then q.past[|q.past| - 1] else q.text
  {
    hide EditOk, HistoryOk, Honest, Joinable, Tied;
    PastAfterEdit(first, p, q);
    PastAfterEdit(second, q, r);
    EditIsJoinable(first, p, q, SameOp(first.opId, second.opId));
    EditIsJoinable(second, q, r, false);
    TextAfterUndo(r, s);
  }

  /** The text that an undo after the edit goes to, and what the next edit is compared with. */
  lemma {:induction false} PastAfterEdit(c: Call, p: Moment, q: Moment)
    requires c.Edit? && EditOk(c, p, q) && !Trivial(c.change)
    ensures q.last == LastEdit(c.opId, c.origin, c.time) && q.depth == p.depth
    ensures if Merges(c, p) then q.past == p.past else q.past != [] ==> q.past[|q.past| - 1] == p.text
  {
    hide Replaced, Fits, EventExtended, EventOnTop, Joinable, Events;
    if !Merges(c, p) && q.past != [] { assert q.past[|q.past| - 1] == (p.past + [p.text])[|p.past|]; }
  }

  lemma {:induction false} TextAfterUndo(p: Moment, q: Moment)
    requires HistoryOk(true, false, 0, None, p, q) && p.past != []
    ensures q.text == p.past[|p.past| - 1]
  {
    hide HasUsable, NewestOther;
    assert FromHistory(true, q.text, q.past, q.future, p.text, p.past, p.future);
  }

  // ------------------------------------------------------------------ runs

  /** The generations that were seen stand for the texts that they were seen with. */
  ghost predicate Seen(trace: seq<Moment>, meaning: map<nat, Lines>) {
    forall i :: 0 <= i < |trace| ==> trace[i].generation in meaning && meaning[trace[i].generation] == trace[i].text
  }

  /**
   * Every run, up to a call that is not acceptable: the states that it goes through. The same
   * generation means the same text at all times, so isClean is right about every generation that
   * was taken before; and every event on the stack leads to one text.
   */
  method RunCalls(d: Doc, run: seq<Call>, ghost start: Moment) returns (n: nat, ghost trace: seq<Moment>)
    requires Shows(d, start)
    modifies d
    ensures n <= |run| && |trace| == n + 1 && trace[0] == start && Shows(d, trace[n])
    ensures n < |run| ==> !Acceptable(d, run[n])
    ensures forall i :: 0 <= i < n ==> StepOk(run[i], trace[i], trace[i + 1])
    ensures forall i, j :: 0 <= i < |trace| && 0 <= j < |trace| && trace[i].generation == trace[j].generation ==> trace[i].text == trace[j].text
    ensures forall i :: 0 <= i < |trace| ==> Honest(trace[i])
  {
    hide Shows, StepOk, Acceptable, Honest;
    n, trace := 0, [start];
    ShownIsHonest(d, start);
    while n < |run| && Acceptable(d, run[n])
      invariant n <= |run| && |trace| == n + 1 && trace[0] == start && Shows(d, trace[n])
      invariant forall i :: 0 <= i < n ==> StepOk(run[i], trace[i], trace[i + 1])
      invariant Seen(trace, d.meaning) && forall i :: 0 <= i < |trace| ==> Honest(trace[i])
    {
      ghost var q := Perform(d, run[n], trace[n]);
      ShownIsHonest(d, q);
      trace := trace + [q];
      n := n + 1;
    }
  }

  /** A document that says it is clean is; and there is a text for every event. */
  ghost predicate Honest(p: Moment) {
    && (p.generation == p.cleanGeneration ==> p.text == p.clean)
    && |p.past| == Events(p.done) && |p.future| == Events(p.undone)
  }

  lemma {:induction false} ShownIsHonest(d: Doc, p: Moment)
    requires Shows(d, p)
    ensures Honest(p) && p.generation in d.meaning && d.meaning[p.generation] == p.text
  {
    ChainCounts(d.text, d.done, d.past, d.meaning);
    ChainCounts(d.text, d.undone, d.future, d.meaning);
  }
}
