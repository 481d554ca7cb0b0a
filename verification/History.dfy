/** The undo history of codemirror.js. */
module History {
  import opened Options
  import opened Seqs
  import opened Text
  import opened Selections

  /**
   * An entry of the arrays `done` and `undone`: a selection, or the changes that take one event
   * back, last one first, with the generation that the document then has.
   */
  datatype Event = Sel(sel: Selection) | Changes(changes: seq<Change>, generation: nat)

  // ------------------------------------------------------------------ taking changes back

  ghost predicate Revertible(t: Lines, changes: seq<Change>)
    decreases |changes|
  {
    changes == [] ||
    (var n := |changes| - 1; Fits(t, changes[n]) && Revertible(Replaced(t, changes[n]), changes[..n]))
  }

  /** The text after the changes have been made, from the last to the first. */
  ghost function Reverted(t: Lines, changes: seq<Change>): Lines
    requires Revertible(t, changes)
    decreases |changes|
  {
    if changes == [] then t
    else var n := |changes| - 1; Reverted(Replaced(t, changes[n]), changes[..n])
  }

  lemma {:induction false} RevertOneMore(t: Lines, changes: seq<Change>, c: Change)
    requires Fits(t, c) && Revertible(Replaced(t, c), changes)
    ensures Revertible(t, changes + [c]) && Reverted(t, changes + [c]) == Reverted(Replaced(t, c), changes)
  {
    assert (changes + [c])[..|changes|] == changes;
  }

  /** A change made on a text whose last event is `changes`: its inverse is taken back first. */
  lemma {:induction false} RevertInverse(t: Lines, changes: seq<Change>, c: Change)
    requires Fits(t, c) && Revertible(t, changes)
    ensures Revertible(Replaced(t, c), changes + [Inverse(t, c)])
    ensures Reverted(Replaced(t, c), changes + [Inverse(t, c)]) == Reverted(t, changes)
  {
    InverseUndoes(t, c);
    RevertOneMore(Replaced(t, c), changes, Inverse(t, c));
  }

  /** An insertion right where the last change ends is covered by moving that end. */
  lemma {:induction false} RevertExtended(t: Lines, changes: seq<Change>, c: Change)
    requires changes != [] && Revertible(t, changes) && Fits(t, c) && c.from == c.to == changes[|changes| - 1].to
    ensures var n := |changes| - 1;
      var extended := changes[n := changes[n].(to := ChangeEnd(c))];
      Revertible(Replaced(t, c), extended) && Reverted(Replaced(t, c), extended) == Reverted(t, changes)
  {
    var n := |changes| - 1;
    var last, u := changes[n], Replaced(t, c);
    var last' := last.(to := ChangeEnd(c));
    EndOfChange(t, c);
    BeforeStays(t, c, last.from);
    assert Replaced(u, last') == Replaced(t, last);
    assert changes[n := last'][..n] == changes[..n];
  }

  /** u: the first i changes are still to be made on the way back from t; `anti` leads from u to t again. */
  ghost predicate Reverting(t: Lines, u: Lines, changes: seq<Change>, i: nat, anti: seq<Change>) {
    && i <= |changes| && |anti| == |changes| - i && Revertible(t, changes)
    && Revertible(u, changes[..i]) && Reverted(u, changes[..i]) == Reverted(t, changes)
    && Revertible(u, anti) && Reverted(u, anti) == t
  }

  lemma {:induction false} RevertStarts(t: Lines, changes: seq<Change>)
    requires Revertible(t, changes)
    ensures Reverting(t, t, changes, |changes|, [])
  {
    assert changes[..|changes|] == changes;
  }

  lemma {:induction false} RevertStep(t: Lines, u: Lines, changes: seq<Change>, i: nat, anti: seq<Change>)
    requires i < |changes| && Reverting(t, u, changes, i + 1, anti)
    ensures Fits(u, changes[i])
    ensures Reverting(t, Replaced(u, changes[i]), changes, i, anti + [Inverse(u, changes[i])])
  {
    assert changes[..i + 1][..i] == changes[..i] && changes[..i + 1][i] == changes[i];
    RevertInverse(u, anti, changes[i]);
  }

  lemma {:induction false} RevertEnds(t: Lines, u: Lines, changes: seq<Change>, anti: seq<Change>)
    requires Reverting(t, u, changes, 0, anti)
    ensures u == Reverted(t, changes) && Revertible(u, anti) && Reverted(u, anti) == t && |anti| == |changes|
  {
    assert changes[..0] == [];
  }

  // ------------------------------------------------------------------ stacks of events

  /**
   * The events of the stack can be taken back one after the other, starting from t; `texts` are
   * the texts that this leads to, the next one last, and each event names a generation that
   * stands for its text.
   */
  ghost predicate Chain(t: Lines, stack: seq<Event>, texts: seq<Lines>, meaning: map<nat, Lines>)
    decreases |stack|
  {
    if stack == [] then texts == []
    else
      var n := |stack| - 1;
      match stack[n]
      case Sel(_) => Chain(t, stack[..n], texts, meaning)
      case Changes(cs, g) =>
        && texts != [] && cs != [] && g > 0 && g in meaning
        && var before := texts[|texts| - 1];
           Revertible(t, cs) && Reverted(t, cs) == before && meaning[g] == before &&
           Chain(before, stack[..n], texts[..|texts| - 1], meaning)
  }

  predicate EventAt(stack: seq<Event>, i: nat)
    requires i < |stack|
  {
    stack[i].Changes?
  }

  /** Every event has a selection right below it. */
  ghost predicate SelBelow(stack: seq<Event>) {
    forall i: nat {:trigger EventAt(stack, i)} :: i < |stack| && EventAt(stack, i) ==> i > 0 && stack[i - 1].Sel?
  }

  predicate TopIsSel(stack: seq<Event>) {
    stack != [] && stack[|stack| - 1].Sel?
  }

  predicate TopIsEvent(stack: seq<Event>) {
    stack != [] && stack[|stack| - 1].Changes?
  }

  /** a is what came last in b. */
  ghost predicate IsSuffix<T>(a: seq<T>, b: seq<T>) {
    |a| <= |b| && forall i {:trigger a[i]} :: 0 <= i < |a| ==> a[i] == b[|b| - |a| + i]
  }

  lemma {:induction false} SuffixStep<T>(a: seq<T>, b: seq<T>, c: seq<T>)
    requires IsSuffix(a, c) && (b == a || (a != [] && b == a[1..]))
    ensures IsSuffix(b, c)
  {
    forall i | 0 <= i < |b| ensures b[i] == c[|c| - |b| + i] { assert b[i] == a[|a| - |b| + i]; }
  }

  lemma {:induction false} WholeSuffix<T>(a: seq<T>, b: seq<T>)
    requires IsSuffix(a, b) && |a| == |b|
    ensures a == b
  {
    forall i | 0 <= i < |a| ensures a[i] == b[i] {}
  }

  /** How many entries of the history a depth leaves: no more than that, and an event only with the selection below it. */
  function KeptCount(stack: seq<Event>, depth: Option<nat>): (n: nat)
    ensures n <= |stack| && (depth.Some? ==> n <= depth.value)
  {
    if depth == None || |stack| <= depth.value then |stack|
    else if depth.value == 0 || stack[|stack| - depth.value].Sel? then depth.value
    else depth.value - 1
  }

  /** A new event on top, with the selection `sel` below it unless one is there. */
  function Grown(done: seq<Event>, sel: Selection, e: Event): seq<Event> {
    (if TopIsSel(done) then done else done + [Sel(sel)]) + [e]
  }

  /** There is an event that a change may join: any if `force`, otherwise one of the two newest entries. */
  predicate Joinable(done: seq<Event>, force: bool) {
    exists i :: 0 <= i < |done| && (force || i >= |done| - 2) && done[i].Changes?
  }

  /** A part that does not begin with an event. */
  lemma {:induction false} SelBelowPart(stack: seq<Event>, part: seq<Event>, k: nat)
    requires SelBelow(stack) && k + |part| <= |stack| && part == stack[k..k + |part|]
    requires k == 0 || part == [] || part[0].Sel?
    ensures SelBelow(part)
  {
    forall i: nat | i < |part| && EventAt(part, i) ensures i > 0 && part[i - 1].Sel? { assert EventAt(stack, k + i); }
  }

  lemma {:induction false} SelBelowMore(stack: seq<Event>, e: Event)
    requires SelBelow(stack) && (e.Changes? ==> TopIsSel(stack))
    ensures SelBelow(stack + [e])
  {
    forall i: nat | i < |stack + [e]| && EventAt(stack + [e], i) ensures i > 0 && (stack + [e])[i - 1].Sel? {
      if i < |stack| { assert EventAt(stack, i); }
    }
  }

  lemma {:induction false} SelBelowOther(stack: seq<Event>, e: Event)
    requires SelBelow(stack) && stack != [] && (e.Sel? || TopIsEvent(stack))
    ensures SelBelow(stack[|stack| - 1 := e])
  {
    var s := stack[|stack| - 1 := e];
    forall i: nat | i < |s| && EventAt(s, i) ensures i > 0 && s[i - 1].Sel? { assert EventAt(stack, i); }
  }

  function PushSel(stack: seq<Event>, sel: Selection): seq<Event> {
    if stack != [] && stack[|stack| - 1] == Sel(sel) then stack else stack + [Sel(sel)]
  }

  lemma {:induction false} ChainSnoc(t: Lines, stack: seq<Event>, e: Event, texts: seq<Lines>, meaning: map<nat, Lines>)
    ensures e.Sel? ==> (Chain(t, stack + [e], texts, meaning) <==> Chain(t, stack, texts, meaning))
  {
    assert (stack + [e])[..|stack|] == stack;
  }

  lemma {:induction false} ChainEvent(t: Lines, stack: seq<Event>, changes: seq<Change>, g: nat, texts: seq<Lines>, meaning: map<nat, Lines>)
    requires changes != [] && g > 0 && g in meaning && Revertible(t, changes) && Reverted(t, changes) == meaning[g]
    requires Chain(meaning[g], stack, texts, meaning)
    ensures Chain(t, stack + [Changes(changes, g)], texts + [meaning[g]], meaning)
  {
    assert (stack + [Changes(changes, g)])[..|stack|] == stack;
    assert (texts + [meaning[g]])[..|texts|] == texts;
  }

  lemma {:induction false} ChainPush(t: Lines, stack: seq<Event>, sel: Selection, texts: seq<Lines>, meaning: map<nat, Lines>)
    requires Chain(t, stack, texts, meaning) && SelBelow(stack)
    ensures Chain(t, PushSel(stack, sel), texts, meaning) && SelBelow(PushSel(stack, sel)) && TopIsSel(PushSel(stack, sel))
  {
    ChainSnoc(t, stack, Sel(sel), texts, meaning);
    SelBelowMore(stack, Sel(sel));
  }

  lemma {:induction false} ChainMeaning(t: Lines, stack: seq<Event>, texts: seq<Lines>, m: map<nat, Lines>, m': map<nat, Lines>)
    requires Chain(t, stack, texts, m) && forall g :: g in m ==> g in m' && m'[g] == m[g]
    ensures Chain(t, stack, texts, m')
    decreases |stack|
  {
    if stack != [] {
      var n := |stack| - 1;
      match stack[n]
      case Sel(_) => ChainMeaning(t, stack[..n], texts, m, m');
      case Changes(cs, g) => ChainMeaning(texts[|texts| - 1], stack[..n], texts[..|texts| - 1], m, m');
    }
  }

  /** The oldest entry may be dropped. */
  lemma {:induction false} ChainDrop(t: Lines, stack: seq<Event>, texts: seq<Lines>, meaning: map<nat, Lines>)
    requires Chain(t, stack, texts, meaning) && stack != []
    ensures stack[0].Sel? ==> Chain(t, stack[1..], texts, meaning)
    ensures stack[0].Changes? ==> texts != [] && Chain(t, stack[1..], texts[1..], meaning)
    decreases |stack|, 1
  {
    hide Revertible, Reverted;
    var n := |stack| - 1;
    if n == 0 {
      assert stack[..0] == [] && stack[1..] == [];
    } else {
      var rest := stack[1..];
      assert rest[n - 1] == stack[n] && rest[..n - 1] == stack[..n][1..] && stack[..n][0] == stack[0];
      match stack[n]
      case Sel(_) => ChainDrop(t, stack[..n], texts, meaning);
      case Changes(cs, g) => ChainDropBelow(t, stack, texts, meaning);
    }
  }

  /** The same below an event. */
  lemma {:induction false} ChainDropBelow(t: Lines, stack: seq<Event>, texts: seq<Lines>, meaning: map<nat, Lines>)
    requires Chain(t, stack, texts, meaning) && |stack| > 1 && TopIsEvent(stack)
    ensures stack[0].Sel? ==> Chain(t, stack[1..], texts, meaning)
    ensures stack[0].Changes? ==> texts != [] && Chain(t, stack[1..], texts[1..], meaning)
    decreases |stack|, 0
  {
    hide Revertible, Reverted;
    var n, m, rest := |stack| - 1, |texts| - 1, stack[1..];
    assert rest[n - 1] == stack[n] && rest[..n - 1] == stack[..n][1..] && stack[..n][0] == stack[0];
    ChainDrop(texts[m], stack[..n], texts[..m], meaning);
    if stack[0].Changes? {
      assert texts[..m][1..] == texts[1..][..m - 1] && texts[1..][m - 1] == texts[m];
    }
  }

  /** The top event, with selections above it out of the way. */
  lemma {:induction false} ChainTop(t: Lines, stack: seq<Event>, texts: seq<Lines>, meaning: map<nat, Lines>)
    requires Chain(t, stack, texts, meaning)
    ensures texts != [] <==> exists i :: 0 <= i < |stack| && stack[i].Changes?
    decreases |stack|
  {
    if stack != [] {
      var n := |stack| - 1;
      if stack[n].Sel? {
        ChainTop(t, stack[..n], texts, meaning);
        if texts != [] {
          var i :| 0 <= i < n && stack[..n][i].Changes?;
          assert stack[i].Changes?;
        }
        if i :| 0 <= i < |stack| && stack[i].Changes? {
          assert stack[..n][i].Changes?;
        }
      } else {
        assert stack[n].Changes?;
      }
    }
  }

  /** All events of a stack can be taken back in turn. */
  ghost predicate Usable(t: Lines, stack: seq<Event>, texts: seq<Lines>, meaning: map<nat, Lines>) {
    Chain(t, stack, texts, meaning) && SelBelow(stack)
  }

  /** The event on top also takes back c: by moving the end of its last change, or by one more change. */
  function MergedChanges(t: Lines, changes: seq<Change>, c: Change): seq<Change>
    requires Fits(t, c) && changes != []
  {
    var last := changes[|changes| - 1];
    if c.from == c.to && c.from == last.to then changes[|changes| - 1 := last.(to := ChangeEnd(c))]
    else changes + [Inverse(t, c)]
  }

  lemma {:induction false} MergedReverts(t: Lines, changes: seq<Change>, c: Change)
    requires changes != [] && Revertible(t, changes) && Fits(t, c)
    ensures var merged := MergedChanges(t, changes, c);
      merged != [] && Revertible(Replaced(t, c), merged) && Reverted(Replaced(t, c), merged) == Reverted(t, changes)
  {
    if c.from == c.to && c.from == changes[|changes| - 1].to {
      RevertExtended(t, changes, c);
    } else {
      RevertInverse(t, changes, c);
    }
  }

  /** Another way to take the event on top back to the same text. */
  lemma {:induction false} ChainOtherTop(t: Lines, u: Lines, stack: seq<Event>, changes: seq<Change>, texts: seq<Lines>, meaning: map<nat, Lines>)
    requires Usable(t, stack, texts, meaning) && stack != [] && stack[|stack| - 1].Changes?
    requires changes != [] && Revertible(u, changes) && Reverted(u, changes) == Reverted(t, stack[|stack| - 1].changes)
    ensures var n := |stack| - 1; Usable(u, stack[n := Changes(changes, stack[n].generation)], texts, meaning)
  {
    var n := |stack| - 1;
    assert stack[n := Changes(changes, stack[n].generation)][..n] == stack[..n];
    SelBelowOther(stack, Changes(changes, stack[n].generation));
  }

  lemma {:induction false} ChainMerge(t: Lines, stack: seq<Event>, texts: seq<Lines>, meaning: map<nat, Lines>, c: Change)
    requires Usable(t, stack, texts, meaning) && stack != [] && stack[|stack| - 1].Changes? && Fits(t, c)
    ensures stack[|stack| - 1].changes != []
    ensures var n := |stack| - 1;
      Usable(Replaced(t, c), stack[n := Changes(MergedChanges(t, stack[n].changes, c), stack[n].generation)], texts, meaning)
  {
    MergedReverts(t, stack[|stack| - 1].changes, c);
    ChainOtherTop(t, Replaced(t, c), stack, MergedChanges(t, stack[|stack| - 1].changes, c), texts, meaning);
  }

  /** A new event on top of a selection. */
  lemma {:induction false} ChainNew(t: Lines, stack: seq<Event>, texts: seq<Lines>, meaning: map<nat, Lines>, c: Change, g: nat)
    requires Chain(t, stack, texts, meaning) && SelBelow(stack) && TopIsSel(stack) && Fits(t, c)
    requires g > 0 && g in meaning && meaning[g] == t
    ensures var more := stack + [Changes([Inverse(t, c)], g)];
      Chain(Replaced(t, c), more, texts + [t], meaning) && SelBelow(more)
  {
    InverseUndoes(t, c);
    var inverse := Inverse(t, c);
    RevertOneMore(Replaced(t, c), [], inverse);
    assert [] + [inverse] == [inverse];
    ChainEvent(Replaced(t, c), stack, [inverse], g, texts, meaning);
    SelBelowMore(stack, Changes([inverse], g));
  }

  /** The stack without its oldest entry, or without the oldest two when the second is an event. */
  function Trimmed(stack: seq<Event>): seq<Event>
    requires |stack| > 1
  {
    if stack[1].Sel? then stack[1..] else stack[2..]
  }

  lemma {:induction false} ChainTrim(t: Lines, stack: seq<Event>, texts: seq<Lines>, meaning: map<nat, Lines>)
    requires Chain(t, stack, texts, meaning) && SelBelow(stack) && |stack| > 1
    ensures SelBelow(Trimmed(stack))
    ensures stack[1].Sel? ==> Chain(t, Trimmed(stack), texts, meaning)
    ensures stack[1].Changes? ==> texts != [] && Chain(t, Trimmed(stack), texts[1..], meaning)
  {
    hide Chain;
    assert !EventAt(stack, 0);
    ChainDrop(t, stack, texts, meaning);
    if stack[1].Changes? {
      ChainDrop(t, stack[1..], texts, meaning);
      assert stack[1..][1..] == stack[2..];
    }
    var r, k := Trimmed(stack), if stack[1].Sel? then 1 else 2;
    assert |stack| > 2 && stack[1].Changes? ==> !EventAt(stack, 2);
    SelBelowPart(stack, r, k);
  }

  // ------------------------------------------------------------------ the document and its history

  /** The id of the operation that a call runs in; a document without an editor has none (NaN). */
  type OpId = Option<int>

  predicate SameOp(a: OpId, b: OpId) {
    a.Some? && a == b
  }

  /** The current generation stands for the text, and no number beyond maxGeneration stands for anything. */
  ghost predicate Numbered(t: Lines, generation: nat, maxGeneration: nat, meaning: map<nat, Lines>) {
    && 0 < generation && generation in meaning && meaning[generation] == t
    && maxGeneration in meaning && forall g :: g in meaning ==> g <= maxGeneration
  }

  /** A number that stood for nothing is the current one now, and stands for t. */
  ghost predicate Renumbered(t: Lines, generation: nat, maxGeneration: nat, meaning: map<nat, Lines>, was: map<nat, Lines>) {
    && Numbered(t, generation, maxGeneration, meaning) && generation !in was
    && forall g :: g in was ==> g in meaning && meaning[g] == was[g]
  }

  lemma {:induction false} Stamped(was: Lines, t: Lines, stack: seq<Event>, texts: seq<Lines>, meaning: map<nat, Lines>, sel: Selection,
                generation: nat, maxGeneration: nat)
    requires Usable(t, stack, texts, meaning) && Numbered(was, generation, maxGeneration, meaning)
    ensures var more, g := stack + [Sel(sel)], maxGeneration + 1;
      && Usable(t, more, texts, meaning[g := t]) && TopIsSel(more) && Renumbered(t, g, g, meaning[g := t], meaning)
  {
    ChainSnoc(t, stack, Sel(sel), texts, meaning);
    SelBelowMore(stack, Sel(sel));
    ChainMeaning(t, stack + [Sel(sel)], texts, meaning, meaning[maxGeneration + 1 := t]);
  }

  /** Whether a stack of n entries is not too long. */
  predicate Within(n: nat, depth: Option<nat>) {
    depth == None || n <= depth.value
  }

  /** An event of its own for a change of t, on the stack `was`; a search for an event has emptied that if `force`. */
  function EventOnTop(t: Lines, sel: Selection, c: Change, generation: nat, force: bool, was: seq<Event>): seq<Event>
    requires Fits(t, c)
  {
    Grown(if force then [] else was, sel, Changes([Inverse(t, c)], generation))
  }

  /** The change of t has become a part of the newest event; the selections above that are gone. */
  ghost predicate EventExtended(t: Lines, c: Change, was: seq<Event>, done: seq<Event>)
    requires Fits(t, c)
  {
    var n := |done| - 1;
    && 0 <= n < |was| && was[n].Changes? && was[n].changes != [] && (forall i :: n < i < |was| ==> was[i].Sel?)
    && done == was[..n] + [Changes(MergedChanges(t, was[n].changes, c), was[n].generation)]
  }

  /** The newest entries of a grown stack are left, and what can be undone with them. */
  ghost predicate IsTrimmed(t: Lines, grown: seq<Event>, depth: Option<nat>, texts: seq<Lines>, done: seq<Event>, past: seq<Lines>) {
    && IsSuffix(done, grown) && |done| == KeptCount(grown, depth) && Within(|done|, depth)
    && IsSuffix(past, texts + [t]) && |past| == Events(done)
    && (Within(|grown|, depth) ==> past == texts + [t])
  }

  lemma {:induction false} TrimmedEvent(t: Lines, grown: seq<Event>, depth: Option<nat>, texts: seq<Lines>, done: seq<Event>, past: seq<Lines>)
    requires IsSuffix(done, grown) && |done| == KeptCount(grown, depth)
    requires IsSuffix(past, texts + [t]) && |past| == Events(done) && |texts| + 1 == Events(grown)
    ensures IsTrimmed(t, grown, depth, texts, done, past)
  {
    if Within(|grown|, depth) {
      WholeSuffix(done, grown);
      WholeSuffix(past, texts + [t]);
    }
  }

  lemma {:induction false} MergedInto(t: Lines, c: Change, was: seq<Event>, found: seq<Event>, done: seq<Event>)
    requires Fits(t, c) && found <= was && TopIsEvent(found) && forall i :: |found| <= i < |was| ==> was[i].Sel?
    requires var n := |found| - 1;
      found[n].changes != [] && done == found[..n] + [Changes(MergedChanges(t, found[n].changes, c), found[n].generation)]
    ensures EventExtended(t, c, was, done)
  {
    var n := |found| - 1;
    assert found[..n] == was[..n] && found[n] == was[n];
  }

  /** Dropping one more entry, or an event with its selection, leaves enough. */
  lemma {:induction false} TrimStep(was: seq<Event>, done: seq<Event>, depth: nat)
    requires IsSuffix(done, was) && depth < |done| && |done| > 1
    ensures IsSuffix(Trimmed(done), was) && KeptCount(was, Some(depth)) <= |Trimmed(done)| < |done|
  {
    assert done[1] == was[|was| - |done| + 1];
    var r, k := Trimmed(done), |done| - |Trimmed(done)|;
    forall i | 0 <= i < |r| ensures r[i] == was[|was| - |r| + i] { assert r[i] == done[k + i]; }
  }

  lemma {:induction false} TrimEnds(was: seq<Event>, done: seq<Event>, depth: Option<nat>)
    requires IsSuffix(done, was) && KeptCount(was, depth) <= |done| && Within(|done|, depth) && SelBelow(done)
    ensures |done| == KeptCount(was, depth)
  {
    if done != [] { assert !EventAt(done, 0) && done[0] == was[|was| - |done|]; }
  }

  /** The selection would take the place of an event of the history, or of an entry that is not there. */
  predicate Overwriting(opId: OpId, origin: Option<string>, lastSelOp: OpId, done: seq<Event>) {
    SameOp(opId, lastSelOp) && if done == [] then origin.Some? else done[|done| - 1].Changes?
  }

  /** Whether there is anything to undo or redo. */
  predicate HasUsable(source: seq<Event>, selectionOnly: bool, current: Selection) {
    exists i :: 0 <= i < |source| && if selectionOnly then source[i].Sel? && source[i].sel != current else source[i].Changes?
  }

  /** The newest entry that is not the current selection; -1 if there is none. */
  function NewestOther(source: seq<Event>, current: Selection): (k: int)
    ensures -1 <= k < |source| && (k >= 0 ==> source[k] != Sel(current))
    ensures forall i :: k < i < |source| ==> source[i] == Sel(current)
  {
    if source == [] then -1
    else if source[|source| - 1] == Sel(current) then NewestOther(source[..|source| - 1], current)
    else |source| - 1
  }

  /** undoSelection or redoSelection goes to another selection, and takes no event back. */
  predicate GoesToSelection(source: seq<Event>, selectionOnly: bool, current: Selection) {
    selectionOnly && HasUsable(source, true, current) && var k := NewestOther(source, current); k >= 0 && source[k].Sel?
  }

  /** undoSelection would put the selection it goes to in the place of the event below that. */
  predicate OverwritingBack(undo: bool, source: seq<Event>, selectionOnly: bool, current: Selection, opId: OpId, lastSelOp: OpId) {
    undo && SameOp(opId, lastSelOp) && GoesToSelection(source, selectionOnly, current) &&
    var k := NewestOther(source, current); k > 0 && source[k - 1].Changes?
  }

  /** The newest event; -1 if there is none. */
  function NewestEvent(source: seq<Event>): (k: int)
    ensures -1 <= k < |source| && (k >= 0 ==> source[k].Changes?)
    ensures forall i :: k < i < |source| ==> source[i].Sel?
  {
    if source == [] then -1
    else if source[|source| - 1].Sel? then NewestEvent(source[..|source| - 1])
    else |source| - 1
  }

  /** The selections of the one stack, taken from its top, on the other one. */
  function MovedOver(dest: seq<Event>, sels: seq<Event>): seq<Event>
    requires forall i :: 0 <= i < |sels| ==> sels[i].Sel?
  {
    if sels == [] then dest else PushSel(MovedOver(dest, sels[1..]), sels[0].sel)
  }

  /** The selection recorded right above the newest event, or the present one if there is none. */
  function SelAfter(source: seq<Event>, current: Selection): Selection {
    var k := NewestEvent(source);
    if k + 1 < |source| then source[k + 1].sel else current
  }

  /** An event that goes back to this generation is on top of `below`. */
  ghost predicate IsOnTop(stack: seq<Event>, below: seq<Event>, generation: nat) {
    TopIsEvent(stack) && stack[|stack| - 1].generation == generation && stack[..|stack| - 1] == below
  }

  /** The newest event of one stack has gone, and on the other one is the event to come back, above the selection to come back to. */
  ghost predicate EventMoved(source0: seq<Event>, dest0: seq<Event>, current: Selection, generation: nat, source: seq<Event>, dest: seq<Event>) {
    var k := NewestEvent(source0);
    && k >= 0 && source == source0[..k]
    && IsOnTop(dest, PushSel(MovedOver(dest0, source0[k + 1..]), SelAfter(source0, current)), generation)
  }

  /** The newest other selection has gone to the other stack, with those above it. */
  ghost predicate SelectionMoved(source0: seq<Event>, dest0: seq<Event>, current: Selection, source: seq<Event>, dest: seq<Event>) {
    var k := NewestOther(source0, current);
    && k >= 0 && (forall i :: k <= i < |source0| ==> source0[i].Sel?)
    && source == source0[..k] && dest == MovedOver(dest0, source0[k..])
  }

  /** Both stacks after undoSelection, or redoSelection, has gone to the selection s, which is recorded like any other. */
  ghost predicate WentToSelection(undo: bool, source0: seq<Event>, dest0: seq<Event>, current: Selection, s: Selection, replace: bool,
                                  done: seq<Event>, undone: seq<Event>) {
    exists source, dest :: SelectionMoved(source0, dest0, current, source, dest)
      && done == WithSel(if undo then source else dest, s, replace) && undone == if undo then dest else source
  }

  /** The stack without the selections on its top. */
  function WithoutSels(stack: seq<Event>): seq<Event> {
    if TopIsSel(stack) then WithoutSels(stack[..|stack| - 1]) else stack
  }

  /** What can be undone, and what the numbers of the generations stand for. */
  ghost predicate DoneOk(t: Lines, done: seq<Event>, past: seq<Lines>, meaning: map<nat, Lines>, lastSelOrigin: Option<string>,
                         generation: nat, maxGeneration: nat) {
    && Usable(t, done, past, meaning) && (lastSelOrigin.Some? ==> TopIsSel(done))
    && Numbered(t, generation, maxGeneration, meaning)
  }

  class Doc {
    var text: Lines
    var sel: Selection
    var done: seq<Event>
    var undone: seq<Event>
    var undoDepth: Option<nat>
    var lastModTime: int
    var lastSelTime: int
    var lastOp: OpId
    var lastSelOp: OpId
    var lastOrigin: Option<string>
    var lastSelOrigin: Option<string>
    var generation: nat
    var maxGeneration: nat
    var cleanGeneration: nat
    /** The texts that undo and redo lead to, the next one last. */
    ghost var past: seq<Lines>
    ghost var future: seq<Lines>
    /** The text for which each generation number stands. */
    ghost var meaning: map<nat, Lines>

    ghost predicate Valid()
      reads `text, `done, `undone, `past, `future, `meaning, `lastSelOrigin, `generation, `maxGeneration
    {
      ValidFor(text)
    }

    /** The history belongs to a document with this text. */
    ghost predicate ValidFor(t: Lines)
      reads `done, `undone, `past, `future, `meaning, `lastSelOrigin, `generation, `maxGeneration
    {
      DoneOk(t, done, past, meaning, lastSelOrigin, generation, maxGeneration) && Usable(t, undone, future, meaning)
    }

    /** No generation number has come to stand for another text. */
    twostate predicate MeaningKept()
      reads this
    {
      forall g :: g in old(meaning) ==> g in meaning && meaning[g] == old(meaning)[g]
    }

    constructor (text: Lines, sel: Selection)
      ensures Valid() && this.text == text && this.sel == sel && past == [] && future == [] && done == [] && undone == [] && undoDepth == None
      ensures lastOp == None && lastSelOp == None && lastOrigin == None && lastSelOrigin == None && generation == maxGeneration == 1
      ensures meaning == map[1 := text] && cleanGeneration == 1 && lastModTime == lastSelTime == 0
    {
      this.text, this.sel := text, sel;
      done, undone, undoDepth := [], [], None;
      lastModTime, lastSelTime, lastOp, lastSelOp, lastOrigin, lastSelOrigin := 0, 0, None, None, None, None;
      generation, maxGeneration, cleanGeneration := 1, 1, 1;
      past, future, meaning := [], [], map[1 := text];
    }

    // ---------------------------------------------------------------- edits

    /**
     * The history `now` after a change and before the selection that follows, and the texts to go
     * back to: the same ones when merged; otherwise the text before the change is new, and the
     * oldest entries may be dropped.
     */
    twostate predicate Joined(merged: bool, c: Change, force: bool, now: seq<Event>, texts: seq<Lines>)
      requires Fits(old(text), c)
    {
      if merged then EventExtended(old(text), c, old(done), now) && texts == old(past)
      else IsTrimmed(old(text), EventOnTop(old(text), old(sel), c, old(generation), force, old(done)), old(undoDepth), old(past), now, texts)
    }

    /** Whether the origin of a change lets it join the last event. */
    function OriginMerges(origin: Option<string>, time: int, delay: int): bool
      reads `lastOrigin, `lastModTime
    {
      && origin.Some? && origin.value != "" && lastOrigin == origin
      && ((origin.value[0] == '+' && lastModTime > time - delay) || origin.value[0] == '*')
    }

    /** Whether a change may join the last event. */
    function MayMerge(origin: Option<string>, time: int, delay: int, opId: OpId): bool
      reads `lastOp, `lastOrigin, `lastModTime
    {
      SameOp(lastOp, opId) || OriginMerges(origin, time, delay)
    }

    /** lastChangeEvent: selections in the way are popped, all of them if `force`, one otherwise. */
    method LastChangeEvent(force: bool) returns (found: bool)
      requires Usable(text, done, past, meaning)
      modifies `done
      ensures Usable(text, done, past, meaning)
      ensures found == Joinable(old(done), force)
      ensures done <= old(done) && forall i :: |done| <= i < |old(done)| ==> old(done)[i].Sel?
      ensures if found then TopIsEvent(done) else done == if force then [] else old(done)
    {
      hide Usable;
      ghost var was := done;
      if force {
        while TopIsSel(done)
          invariant Usable(text, done, past, meaning)
          invariant done <= was && forall i :: |done| <= i < |was| ==> was[i].Sel?
          decreases |done|
        {
          ChainPop(text, done, past, meaning);
          done := done[..|done| - 1];
        }
        found := done != [];
        if found { assert was[|done| - 1].Changes?; }
      } else if TopIsEvent(done) {
        found := true;
        assert was[|was| - 1].Changes?;
      } else if |done| > 1 && done[|done| - 2].Changes? {
        ChainPop(text, done, past, meaning);
        done := done[..|done| - 1];
        found := true;
        assert was[|was| - 2].Changes?;
      } else {
        found := false;
      }
    }

    /** The change joins the event on top. */
    method MergeIntoLast(c: Change)
      requires Usable(text, done, past, meaning) && TopIsEvent(done) && Fits(text, c)
      modifies `done
      ensures Usable(Replaced(text, c), done, past, meaning)
      ensures var was, n := old(done), old(|done|) - 1;
        was[n].changes != [] && done == was[..n] + [Changes(MergedChanges(text, was[n].changes, c), was[n].generation)]
    {
      hide Usable, Replaced, Fits;
      ChainMerge(text, done, past, meaning, c);
      var n := |done| - 1;
      done := done[n := Changes(MergedChanges(text, done[n].changes, c), done[n].generation)];
    }

    /** Drops the oldest entries while there are more than undoDepth, and never an event's selection alone. */
    method Trim(ghost t: Lines)
      requires Usable(t, done, past, meaning) && (done == [] || TopIsEvent(done))
      modifies `done, `past
      ensures Usable(t, done, past, meaning)
      ensures IsSuffix(done, old(done)) && |done| == KeptCount(old(done), undoDepth)
      ensures IsSuffix(past, old(past)) && |past| == Events(done) && |old(past)| == Events(old(done))
    {
      ghost var was, texts := done, past;
      ChainCounts(t, was, texts, meaning);
      while undoDepth.Some? && |done| > undoDepth.value
        invariant Usable(t, done, past, meaning) && (done == [] || TopIsEvent(done))
        invariant KeptCount(was, undoDepth) <= |done| && IsSuffix(done, was)
        invariant IsSuffix(past, texts)
        decreases |done|
      {
        TwoEntries(done);
        TrimStep(was, done, undoDepth.value);
        ghost var more := past;
        TrimOnce(t);
        SuffixStep(more, past, texts);
      }
      TrimEnds(was, done, undoDepth);
      ChainCounts(t, done, past, meaning);
    }

    method TrimOnce(ghost t: Lines)
      requires Usable(t, done, past, meaning) && TopIsEvent(done)
      modifies `done, `past
      ensures Usable(t, done, past, meaning) && (done == [] || TopIsEvent(done))
      ensures |old(done)| > 1 && done == Trimmed(old(done))
      ensures past == old(past) || (old(past) != [] && past == old(past)[1..])
    {
      TwoEntries(done);
      ChainTrim(t, done, past, meaning);
      done := done[1..];
      if !done[0].Sel? {
        done := done[1..];
        past := past[1..];
      }
    }

    /** A new event is always preceded by a selection. */
    method SelectionFirst()
      requires Usable(text, done, past, meaning)
      modifies `done
      ensures Usable(text, done, past, meaning) && TopIsSel(done)
      ensures done == if TopIsSel(old(done)) then old(done) else old(done) + [Sel(sel)]
    {
      if !TopIsSel(done) {
        ChainPush(text, done, sel, past, meaning);
        done := PushSel(done, sel);
      }
    }

    method NewEvent(c: Change)
      requires Usable(text, done, past, meaning) && Fits(text, c)
      requires generation > 0 && generation in meaning && meaning[generation] == text
      modifies `done, `past
      ensures Usable(Replaced(text, c), done, past, meaning)
      ensures Joined(false, c, false, done, past)
    {
      hide Replaced, Fits, EventOnTop, IsTrimmed;
      ghost var texts := past;
      PushEvent(c);
      ghost var grown := done;
      Trim(Replaced(text, c));
      TrimmedEvent(text, grown, undoDepth, texts, done, past);
    }

    method PushEvent(c: Change)
      requires Usable(text, done, past, meaning) && Fits(text, c)
      requires generation > 0 && generation in meaning && meaning[generation] == text
      modifies `done, `past
      ensures Usable(Replaced(text, c), done, past, meaning) && TopIsEvent(done)
      ensures done == EventOnTop(text, sel, c, generation, false, old(done)) && past == old(past) + [text]
    {
      hide Fits, Replaced, Chain, SelBelow;
      SelectionFirst();
      ChainNew(text, done, past, meaning, c, generation);
      done := done + [Changes([Inverse(text, c)], generation)];
      past := past + [text];
    }

    /** addChangeToHistory; t is the text to come. `delay` is the option historyEventDelay. */
    method AddChangeToHistory(c: Change, origin: Option<string>, time: int, delay: int, opId: OpId, selAfter: Selection, ghost t: Lines)
      returns (merged: bool)
      requires Valid() && Fits(text, c) && t == Replaced(text, c)
      modifies this
      ensures text == old(text) && undoDepth == old(undoDepth) && cleanGeneration == old(cleanGeneration)
      ensures ValidFor(t) && MeaningKept() && undone == [] && future == []
      ensures merged == (old(MayMerge(origin, time, delay, opId)) && Joinable(old(done), SameOp(old(lastOp), opId)))
      ensures TopIsSel(done) && done[|done| - 1].sel == selAfter && Joined(merged, c, old(SameOp(lastOp, opId)), done[..|done| - 1], past)
      ensures generation == maxGeneration == old(maxGeneration) + 1
      ensures lastModTime == lastSelTime == time && lastOp == lastSelOp == opId && lastOrigin == lastSelOrigin == origin
    {
      merged := Register(c, MayMerge(origin, time, delay, opId), SameOp(lastOp, opId), t);
      ghost var joined := done;
      Stamp(text, t, selAfter, origin, time, opId);
      assert done[..|done| - 1] == joined;
    }

    /** Nothing can be redone any more; the change joins the last event or makes a new one. */
    method Register(c: Change, mayMerge: bool, force: bool, ghost t: Lines) returns (merged: bool)
      requires Valid() && Fits(text, c) && t == Replaced(text, c) && (force ==> mayMerge)
      modifies `done, `undone, `past, `future
      ensures Usable(t, done, past, meaning) && undone == [] && future == []
      ensures merged == (mayMerge && Joinable(old(done), force))
      ensures Joined(merged, c, force, done, past)
    {
      undone, future := [], [];
      merged := JoinHistory(c, mayMerge, force, t);
    }

    /** The change joins the last event if it may and if there is one, and otherwise starts one. */
    method JoinHistory(c: Change, mayMerge: bool, force: bool, ghost t: Lines) returns (merged: bool)
      requires Usable(text, done, past, meaning) && Fits(text, c) && t == Replaced(text, c) && (force ==> mayMerge)
      requires generation > 0 && generation in meaning && meaning[generation] == text
      modifies `done, `past
      ensures Usable(t, done, past, meaning)
      ensures merged == (mayMerge && Joinable(old(done), force))
      ensures Joined(merged, c, force, done, past)
    {
      hide Replaced, IsTrimmed;
      ghost var was := done;
      merged := false;
      if mayMerge {
        merged := LastChangeEvent(force);
      }
      ghost var found := done;
      if merged {
        MergeIntoLast(c);
        MergedInto(text, c, was, found, done);
      } else {
        NewEvent(c);
      }
    }

    /** The end of addChangeToHistory: the selection, a new generation for the new text, and when it was made. */
    method Stamp(ghost was: Lines, ghost t: Lines, selAfter: Selection, origin: Option<string>, time: int, opId: OpId)
      requires Usable(t, done, past, meaning) && Numbered(was, generation, maxGeneration, meaning)
      modifies this
      ensures text == old(text) && undoDepth == old(undoDepth) && cleanGeneration == old(cleanGeneration)
      ensures past == old(past) && future == old(future) && undone == old(undone)
      ensures Usable(t, done, past, meaning) && done == old(done) + [Sel(selAfter)]
      ensures Renumbered(t, generation, maxGeneration, meaning, old(meaning)) && generation == maxGeneration == old(maxGeneration) + 1
      ensures lastModTime == lastSelTime == time && lastOp == lastSelOp == opId && lastOrigin == lastSelOrigin == origin
    {
      hide Usable, Numbered;
      Stamped(was, t, done, past, meaning, selAfter, generation, maxGeneration);
      done := done + [Sel(selAfter)];
      maxGeneration := maxGeneration + 1;
      generation := maxGeneration;
      meaning := meaning[generation := t];
      Remember(origin, time, opId);
    }

    method Remember(origin: Option<string>, time: int, opId: OpId)
      modifies `lastModTime, `lastSelTime, `lastOp, `lastSelOp, `lastOrigin, `lastSelOrigin
      ensures lastModTime == lastSelTime == time && lastOp == lastSelOp == opId && lastOrigin == lastSelOrigin == origin
    {
      lastModTime, lastSelTime := time, time;
      lastOp, lastSelOp := opId, opId;
      lastOrigin, lastSelOrigin := origin, origin;
    }

    /** makeChangeInner: nothing for a change that changes nothing, otherwise into the history and into the text. */
    method MakeChange(c: Change, origin: Option<string>, time: int, delay: int, opId: OpId, selAfter: Selection)
      returns (merged: bool)
      requires Valid() && Fits(text, c)
      modifies this
      ensures Valid() && MeaningKept() && text == Replaced(old(text), c)
      ensures cleanGeneration == old(cleanGeneration) && undoDepth == old(undoDepth)
      ensures c.text == [""] && c.from == c.to ==> !merged && unchanged(this)
      ensures !(c.text == [""] && c.from == c.to) ==>
        && sel == selAfter && future == [] && undone == [] && generation == maxGeneration == old(maxGeneration) + 1
        && merged == (old(MayMerge(origin, time, delay, opId)) && Joinable(old(done), SameOp(old(lastOp), opId)))
        && TopIsSel(done) && done[|done| - 1].sel == selAfter && Joined(merged, c, old(SameOp(lastOp, opId)), done[..|done| - 1], past)
        && lastModTime == lastSelTime == time && lastOp == lastSelOp == opId && lastOrigin == lastSelOrigin == origin
    {
      merged := false;
      if |c.text| == 1 && c.text[0] == "" && Cmp(c.from, c.to) == 0 {
        assert c.text == [""];
        NoChange(text, c);
      } else {
        merged := MakeRealChange(c, origin, time, delay, opId, selAfter);
      }
    }

    method MakeRealChange(c: Change, origin: Option<string>, time: int, delay: int, opId: OpId, selAfter: Selection)
      returns (merged: bool)
      requires Valid() && Fits(text, c)
      modifies this
      ensures Valid() && MeaningKept() && text == Replaced(old(text), c)
      ensures cleanGeneration == old(cleanGeneration) && undoDepth == old(undoDepth)
      ensures sel == selAfter && future == [] && undone == [] && generation == maxGeneration == old(maxGeneration) + 1
      ensures merged == (old(MayMerge(origin, time, delay, opId)) && Joinable(old(done), SameOp(old(lastOp), opId)))
      ensures TopIsSel(done) && done[|done| - 1].sel == selAfter && Joined(merged, c, old(SameOp(lastOp, opId)), done[..|done| - 1], past)
      ensures lastModTime == lastSelTime == time && lastOp == lastSelOp == opId && lastOrigin == lastSelOrigin == origin
    {
      hide Replaced, Fits, EventExtended, IsTrimmed;
      var t := Replaced(text, c);
      merged := AddChangeToHistory(c, origin, time, delay, opId, selAfter, t);
      ShowChange(t, selAfter);
    }

    /** The part of makeChangeSingleDoc that is modelled here: the new text, and the selection after the change. */
    method ShowChange(t: Lines, selAfter: Selection)
      requires ValidFor(t)
      modifies `text, `sel
      ensures Valid() && text == t && sel == selAfter
    {
      text, sel := t, selAfter;
    }

    // ---------------------------------------------------------------- selections

    /** No edit has been made, and no generation has come or gone. */
    twostate predicate EditKept()
      reads this
    {
      && lastOp == old(lastOp) && lastModTime == old(lastModTime) && maxGeneration == old(maxGeneration) && meaning == old(meaning)
      && cleanGeneration == old(cleanGeneration) && undoDepth == old(undoDepth)
    }

    /** Whether the selection of an origin takes the place of the last one. */
    function SelectionMerges(origin: Option<string>, newSel: Selection, time: int, delay: int): bool
      requires lastSelOrigin.Some? ==> TopIsSel(done)
      reads `done, `lastOrigin, `lastModTime, `lastSelOrigin, `lastSelTime
    {
      && origin.Some? && origin.value != "" && lastSelOrigin == origin
      && ((lastModTime == lastSelTime && lastOrigin == origin) || EventCanBeMerged(origin.value, newSel, time, delay))
    }

    /** selectionEventCanBeMerged. */
    function EventCanBeMerged(origin: string, newSel: Selection, time: int, delay: int): bool
      requires origin != "" && TopIsSel(done)
      reads `done, `lastSelTime
    {
      var prev := done[|done| - 1].sel;
      origin[0] == '*' ||
      (origin[0] == '+' && |prev.ranges| == |newSel.ranges| && SomethingSelected(prev) == SomethingSelected(newSel) &&
       time - lastSelTime <= delay)
    }

    /**
     * setSelection. The history stays usable exactly if no event is overwritten, which can only
     * happen after a redo within one operation.
     */
    method SetSelection(newSel: Selection, origin: Option<string>, clearRedo: bool, time: int, delay: int, opId: OpId)
      requires Valid()
      modifies this
      ensures text == old(text) && past == old(past) && future == old(future) && generation == old(generation)
      ensures EditKept() && lastOrigin == old(lastOrigin) && lastSelOp == opId && lastSelOrigin == origin && lastSelTime == time
      ensures done == WithSel(old(done), newSel, old(SameOp(opId, lastSelOp) || SelectionMerges(origin, newSel, time, delay)))
      ensures undone == if clearRedo then WithoutSels(old(undone)) else old(undone)
      ensures sel == newSel && (Valid() <==> !Overwriting(opId, origin, old(lastSelOp), old(done)))
    {
      hide Usable, Numbered, WithSel;
      sel := newSel;
      AddSelectionToHistory(newSel, origin, clearRedo, time, delay, opId);
    }

    method AddSelectionToHistory(newSel: Selection, origin: Option<string>, clearRedo: bool, time: int, delay: int, opId: OpId)
      requires Valid()
      modifies `done, `undone, `lastSelTime, `lastSelOrigin, `lastSelOp
      ensures lastSelOp == opId && lastSelOrigin == origin && lastSelTime == time
      ensures undone == if clearRedo then WithoutSels(old(undone)) else old(undone)
      ensures done == WithSel(old(done), newSel, old(SameOp(opId, lastSelOp) || SelectionMerges(origin, newSel, time, delay)))
      ensures Valid() <==> !Overwriting(opId, origin, old(lastSelOp), old(done))
    {
      PutSelection(newSel, SameOp(opId, lastSelOp) || SelectionMerges(origin, newSel, time, delay), origin, time, opId);
      if clearRedo {
        ClearSelectionEvents();
      }
    }

    method PutSelection(newSel: Selection, replace: bool, origin: Option<string>, time: int, opId: OpId)
      requires Valid() && (replace ==> SameOp(opId, lastSelOp) || (origin.Some? && lastSelOrigin == origin))
      requires SameOp(opId, lastSelOp) ==> replace
      modifies `done, `lastSelTime, `lastSelOrigin, `lastSelOp
      ensures done == WithSel(old(done), newSel, replace) && lastSelOp == opId && lastSelOrigin == origin && lastSelTime == time
      ensures Valid() <==> !Overwriting(opId, origin, old(lastSelOp), old(done))
      ensures Usable(text, undone, future, meaning)
    {
      SelAdded(text, done, past, meaning, newSel, replace, origin);
      done := WithSel(done, newSel, replace);
      lastSelTime, lastSelOrigin, lastSelOp := time, origin, opId;
    }

    /** clearSelectionEvents(hist.undone). */
    method ClearSelectionEvents()
      requires Usable(text, undone, future, meaning)
      modifies this`undone
      ensures Usable(text, undone, future, meaning) && Valid() == old(Valid()) && undone == WithoutSels(old(undone))
    {
      while undone != [] && undone[|undone| - 1].Sel?
        invariant Usable(text, undone, future, meaning) && WithoutSels(undone) == WithoutSels(old(undone))
        decreases |undone|
      {
        ChainPop(text, undone, future, meaning);
        undone := undone[..|undone| - 1];
      }
    }

    // ---------------------------------------------------------------- undo and redo

    /** The changes of an event are made, the last one first; `anti` takes them back. */
    method RevertChanges(changes: seq<Change>, last: Selection) returns (anti: seq<Change>)
      requires changes != [] && Revertible(text, changes)
      modifies `text, `sel
      ensures text == old(Reverted(text, changes)) && sel == last
      ensures anti != [] && Revertible(text, anti) && Reverted(text, anti) == old(text)
    {
      hide Replaced, Inverse, Reverted;
      ghost var t := text;
      anti := [];
      RevertStarts(t, changes);
      var i := |changes|;
      while i > 0
        invariant 0 <= i <= |changes| && Reverting(t, text, changes, i, anti) && (i == 0 ==> sel == last)
      {
        i := i - 1;
        RevertStep(t, text, changes, i, anti);
        anti := anti + [Inverse(text, changes[i])];
        text := Replaced(text, changes[i]);
        var after: Selection := *;
        sel := if i == 0 then last else after;
      }
      RevertEnds(t, text, changes, anti);
    }

    /** undo and redo, and undoSelection and redoSelection, when there is something for them. */
    method MakeChangeFromHistory(undo: bool, selectionOnly: bool, time: int, delay: int, opId: OpId)
      requires Valid()
      modifies this
      ensures Valid() <==> !OverwritingBack(undo, old(Source(undo)), selectionOnly, old(sel), opId, old(lastSelOp))
      ensures EditKept() && lastOrigin == if HasUsable(old(Source(undo)), selectionOnly, old(sel)) then None else old(lastOrigin)
      ensures lastSelOp == if GoesToSelection(old(Source(undo)), selectionOnly, old(sel)) then opId else old(lastSelOp)
      ensures HasUsable(old(Source(undo)), selectionOnly, old(sel)) ==> lastSelOrigin == None
      ensures !selectionOnly ==> FromHistory(undo, text, past, future, old(text), old(past), old(future))
      ensures if !HasUsable(old(Source(undo)), selectionOnly, old(sel)) then unchanged(this) && (!selectionOnly ==> old(Texts(undo)) == [])
        else if GoesToSelection(old(Source(undo)), selectionOnly, old(sel)) then
          && text == old(text) && past == old(past) && future == old(future) && generation == old(generation)
          && Sel(sel) == old(Source(undo))[NewestOther(old(Source(undo)), old(sel))] && lastSelTime == time
          && WentToSelection(undo, old(Source(undo)), old(Source(!undo)), old(sel), sel, SameOp(opId, old(lastSelOp)), done, undone)
        else
          && old(Texts(undo)) != [] && FromHistory(undo, text, past, future, old(text), old(past), old(future))
          && ShowsRecorded(undo) && lastSelTime == old(lastSelTime)
          && EventMoved(old(Source(undo)), old(Source(!undo)), old(sel), old(generation), Source(undo), Source(!undo))
          && generation == old(Source(undo))[NewestEvent(old(Source(undo)))].generation
    {
      hide Usable, EventMoved;
      var source, dest := if undo then done else undone, if undo then undone else done;
      if !HasUsable(source, selectionOnly, sel) {
        NothingToTakeBack(text, source, Texts(undo), meaning, selectionOnly, sel);
        return;
      }
      lastOrigin, lastSelOrigin := None, None;
      FromStacks(undo, selectionOnly, source, dest, time, delay, opId, Texts(undo), Texts(!undo));
    }

    /** The stack that undo, or redo, takes its events from, and the texts that they lead to. */
    function Source(undo: bool): seq<Event>
      reads `done, `undone
    {
      if undo then done else undone
    }

    ghost function Texts(undo: bool): seq<Lines>
      reads `past, `future
    {
      if undo then past else future
    }

    method FromStacks(undo: bool, selectionOnly: bool, source0: seq<Event>, dest0: seq<Event>, time: int, delay: int, opId: OpId,
                      ghost texts: seq<Lines>, ghost others: seq<Lines>)
      requires Usable(text, source0, texts, meaning) && Usable(text, dest0, others, meaning)
      requires Numbered(text, generation, maxGeneration, meaning) && HasUsable(source0, selectionOnly, sel)
      requires texts == Texts(undo) && others == Texts(!undo) && lastSelOrigin == None
      modifies this
      ensures Valid() <==> !OverwritingBack(undo, source0, selectionOnly, old(sel), opId, old(lastSelOp))
      ensures EditKept() && lastOrigin == old(lastOrigin)
      ensures lastSelOp == (if GoesToSelection(source0, selectionOnly, old(sel)) then opId else old(lastSelOp)) && lastSelOrigin == None
      ensures if GoesToSelection(source0, selectionOnly, old(sel)) then
          && text == old(text) && past == old(past) && future == old(future) && generation == old(generation)
          && Sel(sel) == source0[NewestOther(source0, old(sel))] && lastSelTime == time
          && WentToSelection(undo, source0, dest0, old(sel), sel, SameOp(opId, old(lastSelOp)), done, undone)
        else
          && TookBack(undo, texts, others, old(text)) && ShowsRecorded(undo) && lastSelTime == old(lastSelTime)
          && EventMoved(source0, dest0, old(sel), old(generation), Source(undo), Source(!undo))
          && generation == source0[NewestEvent(source0)].generation
    {
      hide Usable, Numbered, MovedOver, NewestOther, NewestEvent, WithSel;
      var source, dest, p := PopEvents(source0, dest0, selectionOnly, sel, text, texts, others, meaning);
      if p.Selected? {
        ghost var current := sel;
        ShowSelection(undo, source, dest, p.sel, time, delay, opId, texts, others);
        assert SelectionMoved(source0, dest0, current, source, dest);
      } else {
        TakeEvent(undo, source, dest, p.event, p.selAfter, texts, others);
      }
    }

    /** The selection is the one recorded just before the event that was taken back. */
    ghost predicate ShowsRecorded(undo: bool)
      reads `done, `undone, `sel
    {
      var source := if undo then done else undone;
      TopIsSel(source) && source[|source| - 1].sel == sel
    }

    /** What is remembered of the last selection. */
    twostate predicate SelectionMarksKept()
      reads `lastSelOp, `lastSelOrigin, `lastSelTime
    {
      lastSelOp == old(lastSelOp) && lastSelOrigin == old(lastSelOrigin) && lastSelTime == old(lastSelTime)
    }

    /** The top of `texts` is the text now, and t can be come back to. */
    ghost predicate TookBack(undo: bool, texts: seq<Lines>, others: seq<Lines>, t: Lines)
      reads `text, `past, `future
    {
      && texts != [] && text == texts[|texts| - 1]
      && past == (if undo then texts[..|texts| - 1] else others + [t])
      && future == (if undo then others + [t] else texts[..|texts| - 1])
    }

    method TakeEvent(undo: bool, source: seq<Event>, dest: seq<Event>, e: Event, selAfter: Selection,
                     ghost texts: seq<Lines>, ghost others: seq<Lines>)
      requires IsTop(text, e, source, texts, meaning) && Usable(text, dest, others, meaning)
      requires Numbered(text, generation, maxGeneration, meaning) && lastSelOrigin == None
      modifies this
      ensures Valid() && TookBack(undo, texts, others, old(text)) && ShowsRecorded(undo)
      ensures Source(undo) == source && IsOnTop(Source(!undo), PushSel(dest, selAfter), old(generation)) && generation == e.generation
      ensures EditKept() && lastOrigin == old(lastOrigin) && SelectionMarksKept()
    {
      hide Revertible, Reverted, Usable, Numbered, ValidFor, TookBack, ShowsRecorded, IsOnTop;
      ghost var t := text;
      var anti := RevertChanges(e.changes, source[|source| - 1].sel);
      EventTaken(t, e, source, dest, selAfter, texts, others, meaning, anti, generation, maxGeneration);
      StoreTaken(undo, source, PushSel(dest, selAfter), Changes(anti, generation), e.generation, texts, others, t);
    }

    /** The stacks after an event has been taken back, with the one that takes back its taking back. */
    method StoreTaken(undo: bool, source: seq<Event>, below: seq<Event>, e: Event, gen: nat,
                      ghost texts: seq<Lines>, ghost others: seq<Lines>, ghost t: Lines)
      requires texts != [] && text == texts[|texts| - 1] && TopIsSel(source) && source[|source| - 1].sel == sel && e.Changes?
      requires Usable(text, source, texts[..|texts| - 1], meaning) && Usable(text, below + [e], others + [t], meaning)
      requires Numbered(text, gen, maxGeneration, meaning) && lastSelOrigin == None
      modifies this
      ensures Valid() && TookBack(undo, texts, others, t) && ShowsRecorded(undo)
      ensures Source(undo) == source && IsOnTop(Source(!undo), below, e.generation) && generation == gen
      ensures EditKept() && lastOrigin == old(lastOrigin) && SelectionMarksKept()
    {
      hide Usable, Numbered, ValidFor;
      ghost var left, more, top := texts[..|texts| - 1], others + [t], below + [e];
      StoreUsable(undo, source, below + [e], gen, left, more);
      assert IsOnTop(top, below, e.generation);
      assert TookBack(undo, texts, others, t);
    }

    method StoreStacks(undo: bool, source: seq<Event>, dest: seq<Event>, gen: nat, ghost texts: seq<Lines>, ghost others: seq<Lines>)
      modifies this
      ensures done == (if undo then source else dest) && undone == (if undo then dest else source) && generation == gen
      ensures past == (if undo then texts else others) && future == (if undo then others else texts)
      ensures text == old(text) && sel == old(sel) && lastSelOrigin == old(lastSelOrigin) && lastSelOp == old(lastSelOp) && lastSelTime == old(lastSelTime)
      ensures EditKept() && lastOrigin == old(lastOrigin)
    {
      done, undone := if undo then source else dest, if undo then dest else source;
      past, future := if undo then texts else others, if undo then others else texts;
      generation := gen;
    }

    /** The same for stacks that lead to these texts. */
    method StoreUsable(undo: bool, source: seq<Event>, dest: seq<Event>, gen: nat, ghost texts: seq<Lines>, ghost others: seq<Lines>)
      requires Usable(text, source, texts, meaning) && Usable(text, dest, others, meaning)
      requires Numbered(text, gen, maxGeneration, meaning) && lastSelOrigin == None
      modifies this
      ensures Valid()
      ensures done == (if undo then source else dest) && undone == (if undo then dest else source) && generation == gen
      ensures past == (if undo then texts else others) && future == (if undo then others else texts)
      ensures text == old(text) && sel == old(sel) && lastSelOrigin == None && lastSelOp == old(lastSelOp) && lastSelTime == old(lastSelTime)
      ensures EditKept() && lastOrigin == old(lastOrigin)
    {
      if undo {
        StoreStacks(true, source, dest, gen, texts, others);
      } else {
        StoreStacks(false, source, dest, gen, texts, others);
      }
    }

    /** undoSelection and redoSelection, when they come to a selection that is not the current one. */
    method ShowSelection(undo: bool, source: seq<Event>, dest: seq<Event>, s: Selection, time: int, delay: int, opId: OpId,
                         ghost texts: seq<Lines>, ghost others: seq<Lines>)
      requires Usable(text, source, texts, meaning) && Usable(text, dest, others, meaning)
      requires Numbered(text, generation, maxGeneration, meaning)
      requires lastSelOrigin == None && TopIsSel(dest)
      modifies this
      ensures Valid() <==> !(undo && SameOp(opId, old(lastSelOp)) && TopIsEvent(source))
      ensures text == old(text) && generation == old(generation) && sel == s
      ensures EditKept() && lastOrigin == old(lastOrigin) && lastSelOp == opId && lastSelOrigin == None && lastSelTime == time
      ensures past == (if undo then texts else others) && future == (if undo then others else texts)
      ensures done == WithSel(if undo then source else dest, s, old(SameOp(opId, lastSelOp))) && undone == (if undo then dest else source)
    {
      StoreUsable(undo, source, dest, generation, texts, others);
      SetSelection(s, None, false, time, delay, opId);
    }

    // ---------------------------------------------------------------- clean

    /** markClean, by changeGeneration(true), which keeps later changes out of the last event. */
    method MarkClean()
      requires Valid()
      modifies `lastOp, `lastSelOp, `lastOrigin, `cleanGeneration
      ensures Valid() && cleanGeneration == generation && cleanGeneration in meaning && meaning[cleanGeneration] == text
      ensures lastOp == None && lastSelOp == None && lastOrigin == None
    {
      hide Usable;
      lastOp, lastSelOp, lastOrigin := None, None, None;
      cleanGeneration := generation;
    }

    /** isClean: never true for another text than that at markClean, or than that with the generation given. */
    method IsClean(gen: nat) returns (clean: bool)
      ensures var g := if gen != 0 then gen else cleanGeneration;
        clean <==> generation == g
      ensures var g := if gen != 0 then gen else cleanGeneration;
        Valid() && clean ==> g in meaning && text == meaning[g]
    {
      clean := generation == if gen != 0 then gen else cleanGeneration;
    }

    /**
     * clearHistory starts again with maxGeneration as the current generation. Generations keep
     * their meaning exactly if the text is the one that the last new generation was made for.
     */
    method ClearHistory()
      requires Valid()
      modifies this
      ensures text == old(text) && meaning == old(meaning) && past == [] && future == [] && generation == old(maxGeneration)
      ensures done == [] && undone == [] && undoDepth == None && cleanGeneration == old(cleanGeneration) && maxGeneration == old(maxGeneration)
      ensures Valid() <==> old(meaning[maxGeneration]) == text
    {
      undoDepth := None;
      StoreStacks(true, [], [], maxGeneration, [], []);
      Remember(None, 0, None);
    }
  }

  /** Undo, or redo, goes to the next text if there is one; the text it leaves can be come back to. */
  ghost predicate FromHistory(undo: bool, t: Lines, past: seq<Lines>, future: seq<Lines>,
                              t0: Lines, past0: seq<Lines>, future0: seq<Lines>) {
    if undo then
      if past0 == [] then t == t0 && past == past0 && future == future0
      else t == past0[|past0| - 1] && past == past0[..|past0| - 1] && future == future0 + [t0]
    else
      if future0 == [] then t == t0 && past == past0 && future == future0
      else t == future0[|future0| - 1] && future == future0[..|future0| - 1] && past == past0 + [t0]
  }

  lemma {:induction false} NothingToTakeBack(t: Lines, source: seq<Event>, texts: seq<Lines>, meaning: map<nat, Lines>, selectionOnly: bool, current: Selection)
    requires Usable(t, source, texts, meaning) && !HasUsable(source, selectionOnly, current)
    ensures !selectionOnly ==> texts == []
  {
    ChainTop(t, source, texts, meaning);
  }

  /** The stack with the selection in the place of its top entry, or on top. */
  function WithSel(stack: seq<Event>, sel: Selection, replace: bool): seq<Event> {
    if !replace then PushSel(stack, sel)
    else if stack != [] then stack[|stack| - 1 := Sel(sel)]
    else stack
  }

  lemma {:induction false} SelAdded(t: Lines, stack: seq<Event>, texts: seq<Lines>, meaning: map<nat, Lines>, sel: Selection, replace: bool, origin: Option<string>)
    requires Usable(t, stack, texts, meaning)
    ensures var more := WithSel(stack, sel, replace);
      (Usable(t, more, texts, meaning) && (origin.Some? ==> TopIsSel(more))) <==>
      !(replace && if stack == [] then origin.Some? else stack[|stack| - 1].Changes?)
  {
    if replace && stack != [] {
      ReplaceTop(t, stack, sel, texts, meaning);
    } else if !replace {
      ChainPush(t, stack, sel, texts, meaning);
    }
  }

  /** Another selection in the place of the top entry: fatal for an event, harmless for a selection. */
  lemma {:induction false} ReplaceTop(t: Lines, stack: seq<Event>, sel: Selection, texts: seq<Lines>, meaning: map<nat, Lines>)
    requires Chain(t, stack, texts, meaning) && SelBelow(stack) && stack != []
    ensures var s := stack[|stack| - 1 := Sel(sel)];
      SelBelow(s) && TopIsSel(s) && (Chain(t, s, texts, meaning) <==> stack[|stack| - 1].Sel?)
  {
    var n := |stack| - 1;
    SelBelowOther(stack, Sel(sel));
    if stack[n].Sel? {
      ChainSnoc(t, stack[..n], stack[n], texts, meaning);
      ChainSnoc(t, stack[..n], Sel(sel), texts, meaning);
      assert stack == stack[..n] + [stack[n]] && stack[n := Sel(sel)] == stack[..n] + [Sel(sel)];
    } else {
      FewerEvents(t, stack, sel, texts, meaning);
    }
  }

  // ------------------------------------------------------------------ popping events

  datatype Popped = Selected(sel: Selection) | Event(event: Event, selAfter: Selection)

  /** The top of the stack is popped. */
  lemma {:induction false} ChainPop(t: Lines, stack: seq<Event>, texts: seq<Lines>, meaning: map<nat, Lines>)
    requires Usable(t, stack, texts, meaning) && stack != []
    ensures var n := |stack| - 1;
      && SelBelow(stack[..n])
      && (stack[n].Sel? ==> Usable(t, stack[..n], texts, meaning))
      && (stack[n].Changes? ==> IsTop(t, stack[n], stack[..n], texts, meaning))
  {
    var n := |stack| - 1;
    SelBelowPart(stack, stack[..n], 0);
    if stack[n].Changes? { assert EventAt(stack, n); }
  }

  /** An event that has been popped from a usable stack. */
  ghost predicate IsTop(t: Lines, e: Event, rest: seq<Event>, texts: seq<Lines>, meaning: map<nat, Lines>) {
    && e.Changes? && texts != [] && e.changes != [] && e.generation > 0 && e.generation in meaning
    && Revertible(t, e.changes) && Reverted(t, e.changes) == texts[|texts| - 1] == meaning[e.generation]
    && Usable(meaning[e.generation], rest, texts[..|texts| - 1], meaning) && TopIsSel(rest)
  }

  /** Both stacks after an event has been taken back; t is the text that it was taken back from. */
  lemma {:induction false} EventTaken(t: Lines, e: Event, source: seq<Event>, dest: seq<Event>, selAfter: Selection, texts: seq<Lines>, others: seq<Lines>,
                   meaning: map<nat, Lines>, anti: seq<Change>, generation: nat, maxGeneration: nat)
    requires IsTop(t, e, source, texts, meaning) && Usable(t, dest, others, meaning) && Numbered(t, generation, maxGeneration, meaning)
    requires anti != [] && Revertible(meaning[e.generation], anti) && Reverted(meaning[e.generation], anti) == t
    ensures Usable(meaning[e.generation], PushSel(dest, selAfter) + [Changes(anti, generation)], others + [t], meaning)
    ensures Numbered(meaning[e.generation], e.generation, maxGeneration, meaning)
  {
    ChainPush(t, dest, selAfter, others, meaning);
    ChainEvent(meaning[e.generation], PushSel(dest, selAfter), anti, generation, others, meaning);
    SelBelowMore(PushSel(dest, selAfter), Changes(anti, generation));
  }

  /** The loop of makeChangeFromHistory: selections move over until one is to be shown or an event is found. */
  method PopEvents(source0: seq<Event>, dest0: seq<Event>, selectionOnly: bool, current: Selection,
                   ghost t: Lines, ghost texts: seq<Lines>, ghost others: seq<Lines>, ghost meaning: map<nat, Lines>)
    returns (source: seq<Event>, dest: seq<Event>, p: Popped)
    requires Usable(t, source0, texts, meaning) && Usable(t, dest0, others, meaning)
    requires HasUsable(source0, selectionOnly, current)
    ensures Usable(t, dest, others, meaning)
    ensures p.Selected? == GoesToSelection(source0, selectionOnly, current)
    ensures p.Selected? ==> Usable(t, source, texts, meaning) && TopIsSel(dest)
    ensures p.Selected? ==> SelectionMoved(source0, dest0, current, source, dest) && source0[|source|] == Sel(p.sel)
    ensures p.Event? ==> IsTop(t, p.event, source, texts, meaning) && IsPopped(source0, dest0, current, source, dest, p)
  {
    hide Chain, SelBelow, IsTop, NewestOther, NewestEvent, MovedSoFar;
    source, dest := source0, dest0;
    NothingMoved(source0, dest0, current);
    var selAfter := current;
    while true
      invariant Usable(t, source, texts, meaning) && Usable(t, dest, others, meaning)
      invariant HasUsable(source, selectionOnly, current)
      invariant source <= source0 && (selectionOnly ==> forall i :: |source| <= i < |source0| ==> source0[i] == Sel(current))
      invariant MovedSoFar(source0, dest0, current, source, dest, selAfter)
      decreases |source|
    {
      var n := |source| - 1;
      var event := source[n];
      ChainPop(t, source, texts, meaning);
      var rest := source[..n];
      match event
      case Sel(s) =>
        OneMoved(source0, dest0, current, source, dest, selAfter);
        ChainPush(t, dest, s, others, meaning);
        dest := PushSel(dest, s);
        if selectionOnly && s != current {
          return rest, dest, Selected(s);
        }
        StillUsable(source, selectionOnly, current);
        selAfter := s;
        source := rest;
      case Changes(cs, g) =>
        EventFound(source0, dest0, current, source, dest, selAfter);
        return rest, dest, Popped.Event(event, selAfter);
    }
  }

  /** The entries of source0 above `source` were selections, and have been moved. */
  ghost predicate MovedSoFar(source0: seq<Event>, dest0: seq<Event>, current: Selection, source: seq<Event>, dest: seq<Event>, selAfter: Selection) {
    && source <= source0 && (forall i :: |source| <= i < |source0| ==> source0[i].Sel?)
    && dest == MovedOver(dest0, source0[|source|..])
    && selAfter == if |source| < |source0| then source0[|source|].sel else current
  }

  lemma NothingMoved(source0: seq<Event>, dest0: seq<Event>, current: Selection)
    ensures MovedSoFar(source0, dest0, current, source0, dest0, current)
  {}

  lemma {:induction false} OneMoved(source0: seq<Event>, dest0: seq<Event>, current: Selection, source: seq<Event>, dest: seq<Event>, selAfter: Selection)
    requires MovedSoFar(source0, dest0, current, source, dest, selAfter) && TopIsSel(source)
    ensures var n := |source| - 1; MovedSoFar(source0, dest0, current, source[..n], PushSel(dest, source[n].sel), source[n].sel)
  {
    assert source0[|source| - 1..][1..] == source0[|source|..];
  }

  /** The event that was found is the newest one. */
  ghost predicate IsPopped(source0: seq<Event>, dest0: seq<Event>, current: Selection, source: seq<Event>, dest: seq<Event>, p: Popped)
    requires p.Event?
  {
    var k := NewestEvent(source0);
    k >= 0 && source == source0[..k] && p.event == source0[k] && p.selAfter == SelAfter(source0, current) && dest == MovedOver(dest0, source0[k + 1..])
  }

  lemma {:induction false} EventFound(source0: seq<Event>, dest0: seq<Event>, current: Selection, source: seq<Event>, dest: seq<Event>, selAfter: Selection)
    requires MovedSoFar(source0, dest0, current, source, dest, selAfter) && TopIsEvent(source)
    ensures var n := |source| - 1; IsPopped(source0, dest0, current, source[..n], dest, Popped.Event(source[n], selAfter))
  {
    assert NewestEvent(source0) == |source| - 1;
  }

  lemma {:induction false} StillUsable(source: seq<Event>, selectionOnly: bool, current: Selection)
    requires HasUsable(source, selectionOnly, current) && source[|source| - 1].Sel?
    requires !(selectionOnly && source[|source| - 1].sel != current)
    ensures HasUsable(source[..|source| - 1], selectionOnly, current)
  {
    var i :| 0 <= i < |source| && if selectionOnly then source[i].Sel? && source[i].sel != current else source[i].Changes?;
    assert source[..|source| - 1][i] == source[i];
  }

  /** Putting in nothing at a place where nothing is taken out leaves the text as it is. */
  lemma {:induction false} NoChange(t: Lines, c: Change)
    requires Fits(t, c) && c.text == [""] && c.from == c.to
    ensures Replaced(t, c) == t
  {
    HeadTail(t, c.from);
    var h := Head(t, c.from);
    assert h[|h| - 1] + "" == h[|h| - 1];
    assert Glue(h, [""]) == h;
  }

  function SomethingSelected(sel: Selection): bool {
    exists i :: 0 <= i < |sel.ranges| && !sel.ranges[i].Empty()
  }

  /** The number of events in a stack is that of the texts that it leads to. */
  ghost function Events(stack: seq<Event>): nat {
    if stack == [] then 0 else Events(stack[..|stack| - 1]) + if stack[|stack| - 1].Changes? then 1 else 0
  }

  lemma {:induction false} ChainCounts(t: Lines, stack: seq<Event>, texts: seq<Lines>, meaning: map<nat, Lines>)
    requires Chain(t, stack, texts, meaning)
    ensures |texts| == Events(stack)
    decreases |stack|
  {
    if stack != [] {
      var n := |stack| - 1;
      match stack[n]
      case Sel(_) => ChainCounts(t, stack[..n], texts, meaning);
      case Changes(cs, g) => ChainCounts(texts[|texts| - 1], stack[..n], texts[..|texts| - 1], meaning);
    }
  }

  /** A stack whose top event was overwritten does not lead to the same texts any more. */
  lemma {:induction false} FewerEvents(t: Lines, stack: seq<Event>, sel: Selection, texts: seq<Lines>, meaning: map<nat, Lines>)
    requires Chain(t, stack, texts, meaning) && stack != [] && stack[|stack| - 1].Changes?
    ensures !Chain(t, stack[|stack| - 1 := Sel(sel)], texts, meaning)
  {
    var n := |stack| - 1;
    var s := stack[n := Sel(sel)];
    ChainCounts(t, stack, texts, meaning);
    assert s[..n] == stack[..n];
    if Chain(t, s, texts, meaning) { ChainCounts(t, s, texts, meaning); }
  }

  lemma {:induction false} TwoEntries(stack: seq<Event>)
    requires SelBelow(stack) && stack != [] && stack[|stack| - 1].Changes?
    ensures |stack| > 1
  {
    assert EventAt(stack, |stack| - 1);
  }
}
