/** replaceSelections: several ranges replaced at once, and the selection afterwards. */
module Replacements {
  import opened Seqs
  import opened Text
  import opened Selections

  /** The changes lie in the text, one behind the other. */
  ghost predicate InOrder(t: Lines, changes: seq<Change>) {
    && (forall i :: 0 <= i < |changes| ==> Fits(t, changes[i]))
    && (forall i :: 0 < i < |changes| ==> Cmp(changes[i - 1].to, changes[i].from) <= 0)
  }

  /** What follows the start of change k when changes k and later have been made, all at once. */
  ghost function Rest(t: Lines, changes: seq<Change>, k: nat): Lines
    requires InOrder(t, changes) && k < |changes|
    decreases |changes| - k
  {
    var c := changes[k];
    if k == |changes| - 1 then Glue(c.text, Tail(t, c.to))
    else Glue(c.text, Glue(Between(t, c.to, changes[k + 1].from), Rest(t, changes, k + 1)))
  }

  /** All ranges of t replaced at once. */
  ghost function AllReplaced(t: Lines, changes: seq<Change>): Lines
    requires InOrder(t, changes)
  {
    if changes == [] then t else Glue(Head(t, changes[0].from), Rest(t, changes, 0))
  }

  /** The text with changes k and later made. */
  ghost function ReplacedFrom(t: Lines, changes: seq<Change>, k: nat): Lines
    requires InOrder(t, changes) && k <= |changes|
  {
    if k == |changes| then t else Glue(Head(t, changes[k].from), Rest(t, changes, k))
  }

  /** One more change, before those that have been made. */
  lemma {:induction false} OneMore(t: Lines, changes: seq<Change>, k: nat)
    requires InOrder(t, changes) && k < |changes|
    ensures var u := ReplacedFrom(t, changes, k + 1);
      Fits(u, changes[k]) && Replaced(u, changes[k]) == ReplacedFrom(t, changes, k)
  {
    var c, u := changes[k], ReplacedFrom(t, changes, k + 1);
    if k + 1 == |changes| {
      GlueAssociates(Head(t, c.from), c.text, Tail(t, c.to));
    } else {
      var next, rest := changes[k + 1].from, Rest(t, changes, k + 1);
      var middle := Between(t, c.to, next);
      HeadBetween(t, c.to, next);
      HeadBetween(t, c.from, c.to);
      var x := Between(t, c.from, c.to);
      HeadTail(t, c.from);
      HeadTail(t, c.to);
      GlueAssociates(Head(t, c.to), middle, rest);
      SplitGlue(Head(t, c.to), Glue(middle, rest));
      GlueAssociates(Head(t, c.from), x, Glue(middle, rest));
      SplitGlue(Head(t, c.from), Glue(x, Glue(middle, rest)));
      GlueAssociates(Head(t, c.from), c.text, Glue(middle, rest));
    }
  }

  /** The loop of replaceSelections: the last change first. */
  method MakeChanges(t: Lines, changes: seq<Change>) returns (u: Lines)
    requires InOrder(t, changes)
    ensures u == AllReplaced(t, changes)
  {
    hide Replaced, InOrder, Fits, Rest;
    u := t;
    var i := |changes| - 1;
    while i >= 0
      invariant -1 <= i < |changes| && u == ReplacedFrom(t, changes, i + 1)
    {
      OneMore(t, changes, i);
      u := Replaced(u, changes[i]);
      i := i - 1;
    }
  }

  // ------------------------------------------------------------------ where the new texts are

  /** offsetPos. */
  function OffsetPos(pos: Pos, old_: Pos, nw: Pos): Pos {
    if pos.line == old_.line then Pos(nw.line, pos.ch - old_.ch + nw.ch)
    else Pos(nw.line + (pos.line - old_.line), pos.ch)
  }

  /** Where n ends after a tells where it ends after x. */
  lemma {:induction false} OffsetOfEnd(a: Lines, n: Lines, x: Lines)
    ensures OffsetPos(End(Glue(a, n)), End(a), End(x)) == End(Glue(x, n))
  {
    EndOfGlue(a, n);
    EndOfGlue(x, n);
  }

  /** The final text up to the start of the new text of change k. */
  ghost function Before(t: Lines, changes: seq<Change>, k: nat): Lines
    requires InOrder(t, changes) && k < |changes|
  {
    if k == 0 then Head(t, changes[0].from)
    else Glue(Glue(Before(t, changes, k - 1), changes[k - 1].text), Between(t, changes[k - 1].to, changes[k].from))
  }

  lemma {:induction false} BeforeAndRest(t: Lines, changes: seq<Change>, k: nat)
    requires InOrder(t, changes) && k < |changes|
    ensures AllReplaced(t, changes) == Glue(Before(t, changes, k), Rest(t, changes, k))
  {
    if k > 0 {
      BeforeAndRest(t, changes, k - 1);
      var c, b, m, r := changes[k - 1], Before(t, changes, k - 1), Between(t, changes[k - 1].to, changes[k].from), Rest(t, changes, k);
      GlueAssociates(b, c.text, Glue(m, r));
      GlueAssociates(Glue(b, c.text), m, r);
    }
  }

  /** `from` and `to` are the two ends of the new text of change k in the final text. */
  ghost predicate Brackets(t: Lines, changes: seq<Change>, k: nat, from: Pos, to: Pos)
    requires InOrder(t, changes) && k < |changes|
  {
    var u := AllReplaced(t, changes);
    && InText(u, from) && InText(u, to) && Cmp(from, to) <= 0 && Between(u, from, to) == changes[k].text
    && Head(u, from) == Before(t, changes, k)
  }

  lemma {:induction false} EndsBracket(t: Lines, changes: seq<Change>, k: nat)
    requires InOrder(t, changes) && k < |changes|
    ensures Brackets(t, changes, k, End(Before(t, changes, k)), End(Glue(Before(t, changes, k), changes[k].text)))
  {
    var b, x, u := Before(t, changes, k), changes[k].text, AllReplaced(t, changes);
    BeforeAndRest(t, changes, k);
    var z := if k == |changes| - 1 then Tail(t, changes[k].to)
             else Glue(Between(t, changes[k].to, changes[k + 1].from), Rest(t, changes, k + 1));
    GlueAssociates(b, x, z);
    SplitGlue(b, Glue(x, z));
    SplitGlue(Glue(b, x), z);
    EndOfGlue(b, x);
    HeadBetween(u, End(b), End(Glue(b, x)));
    BetweenFound(u, b, x);
  }

  /** Only one text leads from one head to the other. */
  lemma {:induction false} BetweenFound(u: Lines, b: Lines, x: Lines)
    requires InText(u, End(b)) && InText(u, End(Glue(b, x))) && Cmp(End(b), End(Glue(b, x))) <= 0
    requires Head(u, End(b)) == b && Head(u, End(Glue(b, x))) == Glue(b, x)
    ensures Between(u, End(b), End(Glue(b, x))) == x
  {
    HeadBetween(u, End(b), End(Glue(b, x)));
    GlueCancels(b, Between(u, End(b), End(Glue(b, x))), x);
  }

  lemma {:induction false} GlueCancels(b: Lines, x: Lines, y: Lines)
    requires Glue(b, x) == Glue(b, y)
    ensures x == y
  {
    SplitGlue(b, x);
    SplitGlue(b, y);
  }

  datatype Hint = Start | Around

  /** What the new range k is: around the new text in the direction of the old range, or before it. */
  ghost predicate RangeRight(t: Lines, changes: seq<Change>, k: nat, hint: Hint, was: Range, now: Range)
    requires InOrder(t, changes) && k < |changes|
  {
    match hint
    case Around =>
      && Brackets(t, changes, k, now.From(), now.To())
      && (changes[k].text != [""] ==> (Cmp(now.head, now.anchor) < 0 <==> Cmp(was.head, was.anchor) < 0))
    case Start => now.Empty() && now.head == End(Before(t, changes, k))
  }

  /** The new range k in terms of the final text. */
  ghost function RangeFor(t: Lines, changes: seq<Change>, k: nat, hint: Hint, was: Range): Range
    requires InOrder(t, changes) && k < |changes|
  {
    Directed(hint, was, End(Before(t, changes, k)), End(Glue(Before(t, changes, k), changes[k].text)))
  }

  function Directed(hint: Hint, was: Range, from: Pos, to: Pos): Range {
    var inv := Cmp(was.head, was.anchor) < 0;
    if hint.Start? then Range(from, from) else Range(if inv then to else from, if inv then from else to)
  }

  lemma DirectedEnds(was: Range, from: Pos, to: Pos)
    requires Cmp(from, to) <= 0
    ensures var now := Directed(Around, was, from, to);
      && now.From() == from && now.To() == to
      && (Cmp(from, to) < 0 ==> (Cmp(now.head, now.anchor) < 0 <==> Cmp(was.head, was.anchor) < 0))
  {}

  lemma {:induction false} LongerEndsLater(b: Lines, x: Lines)
    ensures Cmp(End(b), End(Glue(b, x))) <= 0
    ensures x != [""] ==> Cmp(End(b), End(Glue(b, x))) < 0
  {
    EndOfGlue(b, x);
    if |x| == 1 && |x[0]| == 0 {
      assert x == [""];
    }
  }

  lemma {:induction false} RangeIsRight(t: Lines, changes: seq<Change>, k: nat, hint: Hint, was: Range)
    requires InOrder(t, changes) && k < |changes|
    ensures RangeRight(t, changes, k, hint, was, RangeFor(t, changes, k, hint, was))
  {
    var from, to := End(Before(t, changes, k)), End(Glue(Before(t, changes, k), changes[k].text));
    LongerEndsLater(Before(t, changes, k), changes[k].text);
    DirectedEnds(was, from, to);
    if hint.Around? {
      EndsBracket(t, changes, k);
    }
  }

  ghost function OldPrev(changes: seq<Change>, k: nat): Pos
    requires k <= |changes|
  {
    if k == 0 then Pos(0, 0) else changes[k - 1].to
  }

  ghost function NewPrev(t: Lines, changes: seq<Change>, k: nat): Pos
    requires InOrder(t, changes) && k <= |changes|
  {
    if k == 0 then Pos(0, 0) else End(Glue(Before(t, changes, k - 1), changes[k - 1].text))
  }

  /** computeReplacedSel, which only adds up line numbers and columns. */
  method ReplacedRanges(ghost t: Lines, changes: seq<Change>, given: seq<Range>, hint: Hint) returns (ranges: seq<Range>)
    requires InOrder(t, changes) && |given| == |changes|
    ensures |ranges| == |changes|
    ensures forall i :: 0 <= i < |changes| ==> ranges[i] == RangeFor(t, changes, i, hint, given[i])
  {
    hide InOrder, Fits, Glue, Before;
    ranges := [];
    var oldPrev, newPrev := Pos(0, 0), Pos(0, 0);
    for i := 0 to |changes|
      invariant |ranges| == i && oldPrev == OldPrev(changes, i) && newPrev == NewPrev(t, changes, i)
      invariant forall k :: 0 <= k < i ==> ranges[k] == RangeFor(t, changes, k, hint, given[k])
    {
      var change := changes[i];
      var from := OffsetPos(change.from, oldPrev, newPrev);
      var to := OffsetPos(ChangeEnd(change), oldPrev, newPrev);
      RangeComputed(t, changes, i, hint, given[i]);
      ranges := ranges + [Directed(hint, given[i], from, to)];
      oldPrev, newPrev := change.to, to;
    }
  }

  /** Each range is right in the document in which all changes have been made. */
  method ComputeReplacedSel(ghost t: Lines, changes: seq<Change>, sel: Selection, hint: Hint) returns (out: Selection)
    requires InOrder(t, changes) && |sel.ranges| == |changes|
    ensures |out.ranges| == |changes| && out.primIndex == sel.primIndex
    ensures forall i :: 0 <= i < |changes| ==> RangeRight(t, changes, i, hint, sel.ranges[i], out.ranges[i])
  {
    var ranges := ReplacedRanges(t, changes, sel.ranges, hint);
    out := Selection(ranges, sel.primIndex);
    forall i | 0 <= i < |changes| ensures RangeRight(t, changes, i, hint, sel.ranges[i], out.ranges[i]) {
      RangeIsRight(t, changes, i, hint, sel.ranges[i]);
    }
  }

  lemma {:induction false} RangeComputed(t: Lines, changes: seq<Change>, k: nat, hint: Hint, was: Range)
    requires InOrder(t, changes) && k < |changes|
    ensures var old_, nw := OldPrev(changes, k), NewPrev(t, changes, k);
      var from, to := OffsetPos(changes[k].from, old_, nw), OffsetPos(ChangeEnd(changes[k]), old_, nw);
      && Directed(hint, was, from, to) == RangeFor(t, changes, k, hint, was)
      && changes[k].to == OldPrev(changes, k + 1) && to == NewPrev(t, changes, k + 1)
  {
    OffsetsRight(t, changes, k);
  }

  /** The two offsets are the ends of the new text. */
  lemma {:induction false} OffsetsRight(t: Lines, changes: seq<Change>, k: nat)
    requires InOrder(t, changes) && k < |changes|
    ensures var c, b := changes[k], Before(t, changes, k);
      var old_, nw := OldPrev(changes, k), NewPrev(t, changes, k);
      && OffsetPos(c.from, old_, nw) == End(b) && OffsetPos(ChangeEnd(c), old_, nw) == End(Glue(b, c.text))
  {
    var c := changes[k];
    EndOfChange(t, c);
    HeadTail(t, c.from);
    if k > 0 {
      var old_ := changes[k - 1].to;
      var x, m := Glue(Before(t, changes, k - 1), changes[k - 1].text), Between(t, old_, c.from);
      HeadBetween(t, old_, c.from);
      HeadTail(t, old_);
      OffsetOfEnd(Head(t, old_), m, x);
      GlueAssociates(Head(t, old_), m, c.text);
      GlueAssociates(x, m, c.text);
      OffsetOfEnd(Head(t, old_), Glue(m, c.text), x);
    }
  }

  // ------------------------------------------------------------------ replaceSelections

  function ChangesFor(ranges: seq<Range>, code: seq<Lines>): (r: seq<Change>)
    requires |code| == |ranges|
    ensures |r| == |ranges|
  {
    seq(|ranges|, i requires 0 <= i < |ranges| => Change(ranges[i].From(), ranges[i].To(), code[i]))
  }

  predicate RangesIn(t: Lines, ranges: seq<Range>) {
    forall i :: 0 <= i < |ranges| ==> InText(t, ranges[i].anchor) && InText(t, ranges[i].head)
  }

  /** The ranges of a normal selection make changes that lie one behind the other. */
  lemma {:induction false} NormalInOrder(t: Lines, ranges: seq<Range>, code: seq<Lines>, mayTouch: bool)
    requires Normal(ranges, mayTouch) && RangesIn(t, ranges) && |code| == |ranges|
    ensures InOrder(t, ChangesFor(ranges, code))
  {
    var changes := ChangesFor(ranges, code);
    forall i | 0 < i < |changes| ensures Cmp(changes[i - 1].to, changes[i].from) <= 0 {
      assert Separated(ranges[i - 1], ranges[i], mayTouch);
    }
  }

  /** replaceSelections with the hint "start" or "around": the selection is worked out before the text changes. */
  method ReplaceSelections(t: Lines, sel: Selection, code: seq<Lines>, hint: Hint, mayTouch: bool)
    returns (u: Lines, newSel: Selection)
    requires Normal(sel.ranges, mayTouch) && RangesIn(t, sel.ranges) && |code| == |sel.ranges|
    ensures var changes := ChangesFor(sel.ranges, code);
      && InOrder(t, changes) && u == AllReplaced(t, changes) && |newSel.ranges| == |changes| && newSel.primIndex == sel.primIndex
      && forall i :: 0 <= i < |changes| ==> RangeRight(t, changes, i, hint, sel.ranges[i], newSel.ranges[i])
  {
    NormalInOrder(t, sel.ranges, code, mayTouch);
    var changes := ChangesFor(sel.ranges, code);
    newSel := ComputeReplacedSel(t, changes, sel, hint);
    u := MakeChanges(t, changes);
  }
}
