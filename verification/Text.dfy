/** Text as lines, positions in it, and the replacement of a range. */
module Text {
  import opened Seqs

  datatype Pos = Pos(line: int, ch: int)

  /** cmp: negative, zero or positive as a is before, at or after b. */
  function Cmp(a: Pos, b: Pos): int {
    if a.line == b.line then a.ch - b.ch else a.line - b.line
  }

  function MinPos(a: Pos, b: Pos): Pos {
    if Cmp(a, b) < 0 then a else b
  }

  function MaxPos(a: Pos, b: Pos): Pos {
    if Cmp(a, b) < 0 then b else a
  }

  /** At least one line. */
  type Lines = t: seq<string> | t != [] witness [""]

  predicate InText(t: Lines, p: Pos) {
    0 <= p.line < |t| && 0 <= p.ch <= |t[p.line]|
  }

  /** What a change replaces, and by which lines. */
  datatype Change = Change(from: Pos, to: Pos, text: Lines)

  predicate Fits(t: Lines, c: Change) {
    InText(t, c.from) && InText(t, c.to) && Cmp(c.from, c.to) <= 0
  }

  // ------------------------------------------------------------------ texts one after the other

  /** b goes on in the line in which a ends. */
  function Glue(a: Lines, b: Lines): Lines {
    a[..|a| - 1] + [a[|a| - 1] + b[0]] + b[1..]
  }

  /** The position after the last character. */
  function End(t: Lines): Pos {
    Pos(|t| - 1, |t[|t| - 1]|)
  }

  function Head(t: Lines, p: Pos): Lines
    requires InText(t, p)
  {
    t[..p.line] + [t[p.line][..p.ch]]
  }

  function Tail(t: Lines, p: Pos): Lines
    requires InText(t, p)
  {
    [t[p.line][p.ch..]] + t[p.line + 1..]
  }

  lemma {:induction false} GlueAssociates(a: Lines, b: Lines, c: Lines)
    ensures Glue(Glue(a, b), c) == Glue(a, Glue(b, c))
  {
    if |b| == 1 {
      assert a[|a| - 1] + b[0] + c[0] == a[|a| - 1] + (b[0] + c[0]);
    }
  }

  lemma {:induction false} HeadTail(t: Lines, p: Pos)
    requires InText(t, p)
    ensures Glue(Head(t, p), Tail(t, p)) == t && End(Head(t, p)) == p
  {
    assert t[p.line][..p.ch] + t[p.line][p.ch..] == t[p.line];
  }

  /** Where a ends the glued text splits into a and b. */
  lemma {:induction false} SplitGlue(a: Lines, b: Lines)
    ensures InText(Glue(a, b), End(a)) && Head(Glue(a, b), End(a)) == a && Tail(Glue(a, b), End(a)) == b
  {
    var t, p := Glue(a, b), End(a);
    assert t[p.line] == a[|a| - 1] + b[0];
    assert t[p.line][..p.ch] == a[|a| - 1] && t[p.line][p.ch..] == b[0];
  }

  /** Texts that end at the same place of the same text are the same. */
  lemma {:induction false} SplitUnique(t: Lines, a: Lines, b: Lines)
    requires t == Glue(a, b)
    ensures InText(t, End(a)) && a == Head(t, End(a)) && b == Tail(t, End(a))
  {
    SplitGlue(a, b);
  }

  // ------------------------------------------------------------------ ranges and changes

  /** getBetween. */
  function Between(t: Lines, from: Pos, to: Pos): Lines
    requires InText(t, from) && InText(t, to) && Cmp(from, to) <= 0
  {
    if from.line == to.line then [t[from.line][..to.ch][from.ch..]]
    else [t[from.line][from.ch..]] + t[from.line + 1..to.line] + [t[to.line][..to.ch]]
  }

  lemma {:induction false} HeadBetween(t: Lines, from: Pos, to: Pos)
    requires InText(t, from) && InText(t, to) && Cmp(from, to) <= 0
    ensures Glue(Head(t, from), Between(t, from, to)) == Head(t, to)
  {
    if from.line == to.line {
      assert t[from.line][..from.ch] + t[from.line][..to.ch][from.ch..] == t[from.line][..to.ch];
    } else {
      assert t[from.line][..from.ch] + t[from.line][from.ch..] == t[from.line];
    }
  }

  lemma {:induction false} BetweenTail(t: Lines, from: Pos, to: Pos)
    requires InText(t, from) && InText(t, to) && Cmp(from, to) <= 0
    ensures Glue(Between(t, from, to), Tail(t, to)) == Tail(t, from)
  {
    HeadBetween(t, from, to);
    HeadTail(t, from);
    HeadTail(t, to);
    GlueAssociates(Head(t, from), Between(t, from, to), Tail(t, to));
    SplitUnique(t, Head(t, from), Glue(Between(t, from, to), Tail(t, to)));
  }

  /** changeEnd. */
  function ChangeEnd(c: Change): Pos {
    Pos(c.from.line + |c.text| - 1, |c.text[|c.text| - 1]| + if |c.text| == 1 then c.from.ch else 0)
  }

  /** The text with the range of the change replaced: what is before it, the new text, what is after it. */
  function Replaced(t: Lines, c: Change): Lines
    requires Fits(t, c)
  {
    Glue(Glue(Head(t, c.from), c.text), Tail(t, c.to))
  }

  lemma {:induction false} EndOfChange(t: Lines, c: Change)
    requires Fits(t, c)
    ensures ChangeEnd(c) == End(Glue(Head(t, c.from), c.text))
    ensures InText(Replaced(t, c), ChangeEnd(c)) && InText(Replaced(t, c), c.from)
    ensures Head(Replaced(t, c), ChangeEnd(c)) == Glue(Head(t, c.from), c.text) && Tail(Replaced(t, c), ChangeEnd(c)) == Tail(t, c.to)
    ensures Head(Replaced(t, c), c.from) == Head(t, c.from)
    ensures Cmp(c.from, ChangeEnd(c)) <= 0
  {
    SplitGlue(Glue(Head(t, c.from), c.text), Tail(t, c.to));
    GlueAssociates(Head(t, c.from), c.text, Tail(t, c.to));
    SplitGlue(Head(t, c.from), Glue(c.text, Tail(t, c.to)));
    HeadTail(t, c.from);
  }

  /** The change that takes c back. */
  function Inverse(t: Lines, c: Change): Change
    requires Fits(t, c)
  {
    Change(c.from, ChangeEnd(c), Between(t, c.from, c.to))
  }

  lemma {:induction false} InverseUndoes(t: Lines, c: Change)
    requires Fits(t, c)
    ensures Fits(Replaced(t, c), Inverse(t, c)) && Replaced(Replaced(t, c), Inverse(t, c)) == t
  {
    EndOfChange(t, c);
    HeadBetween(t, c.from, c.to);
    HeadTail(t, c.to);
  }

  // ------------------------------------------------------------------ flat text

  /** The lines with a line break after each but the last. */
  function Flat(t: Lines): string {
    if |t| == 1 then t[0] else t[0] + "\n" + Flat(t[1..])
  }

  lemma {:induction false} FlatGlue(a: Lines, b: Lines)
    ensures Flat(Glue(a, b)) == Flat(a) + Flat(b)
    decreases |a|
  {
    var g := Glue(a, b);
    if |a| == 1 {
      assert g[0] == a[0] + b[0] && g[1..] == b[1..];
      if |b| > 1 { assert a[0] + b[0] + "\n" + Flat(b[1..]) == a[0] + (b[0] + "\n" + Flat(b[1..])); }
    } else {
      assert g[0] == a[0] && g[1..] == Glue(a[1..], b);
      FlatGlue(a[1..], b);
      assert a[0] + "\n" + (Flat(a[1..]) + Flat(b)) == a[0] + "\n" + Flat(a[1..]) + Flat(b);
    }
  }

  /** How many characters, line breaks included, are before p. */
  function Index(t: Lines, p: Pos): nat
    requires InText(t, p)
  {
    |Flat(Head(t, p))|
  }

  lemma {:induction false} FlatAt(t: Lines, p: Pos)
    requires InText(t, p)
    ensures Index(t, p) <= |Flat(t)|
    ensures Flat(t)[..Index(t, p)] == Flat(Head(t, p)) && Flat(t)[Index(t, p)..] == Flat(Tail(t, p))
  {
    HeadTail(t, p);
    FlatGlue(Head(t, p), Tail(t, p));
  }

  /** A change of lines is one replacement in the flat text. */
  lemma {:induction false} FlatReplaced(t: Lines, c: Change)
    requires Fits(t, c)
    ensures Index(t, c.from) <= |Flat(t)| && Index(t, c.to) <= |Flat(t)|
    ensures Flat(Replaced(t, c)) == Flat(t)[..Index(t, c.from)] + Flat(c.text) + Flat(t)[Index(t, c.to)..]
  {
    FlatAt(t, c.from);
    FlatAt(t, c.to);
    FlatGlue(Glue(Head(t, c.from), c.text), Tail(t, c.to));
    FlatGlue(Head(t, c.from), c.text);
  }

  // ------------------------------------------------------------------ adjustForChange

  /** adjustForChange. */
  function Adjust(p: Pos, c: Change): Pos {
    if Cmp(p, c.from) < 0 then p
    else if Cmp(p, c.to) <= 0 then ChangeEnd(c)
    else
      var line := p.line + |c.text| - (c.to.line - c.from.line) - 1;
      Pos(line, if p.line == c.to.line then p.ch + ChangeEnd(c).ch - c.to.ch else p.ch)
  }

  /** What is before a position up to the change stays before it. */
  lemma {:induction false} BeforeStays(t: Lines, c: Change, p: Pos)
    requires Fits(t, c) && InText(t, p) && Cmp(p, c.from) <= 0
    ensures InText(Replaced(t, c), p) && Head(Replaced(t, c), p) == Head(t, p)
  {
    HeadBetween(t, p, c.from);
    var rest := Glue(Between(t, p, c.from), Glue(c.text, Tail(t, c.to)));
    GlueAssociates(Head(t, c.from), c.text, Tail(t, c.to));
    GlueAssociates(Head(t, p), Between(t, p, c.from), Glue(c.text, Tail(t, c.to)));
    SplitGlue(Head(t, p), rest);
    HeadTail(t, p);
  }

  /** What is after a position past the change is after the adjusted position. */
  lemma {:induction false} AfterMoves(t: Lines, c: Change, p: Pos)
    requires Fits(t, c) && InText(t, p) && Cmp(c.to, p) <= 0
    ensures InText(Replaced(t, c), Adjust(p, c)) && Tail(Replaced(t, c), Adjust(p, c)) == Tail(t, p)
  {
    var before := Glue(Head(t, c.from), c.text);
    var middle := Between(t, c.to, p);
    BetweenTail(t, c.to, p);
    GlueAssociates(before, middle, Tail(t, p));
    SplitGlue(Glue(before, middle), Tail(t, p));
    EndOfChange(t, c);
    AdjustedEnd(t, c, p);
  }

  lemma {:induction false} AdjustedEnd(t: Lines, c: Change, p: Pos)
    requires Fits(t, c) && InText(t, p) && Cmp(c.to, p) <= 0
    ensures Adjust(p, c) == End(Glue(Glue(Head(t, c.from), c.text), Between(t, c.to, p)))
  {
    EndOfChange(t, c);
    EndOfGlue(Glue(Head(t, c.from), c.text), Between(t, c.to, p));
    if Cmp(p, c.to) == 0 {
      assert Between(t, c.to, p) == [""];
    }
  }

  lemma EndOfGlue(a: Lines, b: Lines)
    ensures End(Glue(a, b)) == Pos(|a| + |b| - 2, if |b| == 1 then |a[|a| - 1]| + |b[0]| else |b[|b| - 1]|)
  {}

  /** Before the change a position stays, and within it, the ends included, it becomes the end of the new text. */
  lemma {:induction false} AdjustedTo(t: Lines, c: Change, p: Pos)
    requires Fits(t, c) && InText(t, p) && Cmp(p, c.to) <= 0
    ensures Adjust(p, c) == if Cmp(p, c.from) < 0 then p else End(Glue(Head(t, c.from), c.text))
  {
    EndOfChange(t, c);
  }

  /** Adjusting keeps the order of positions and leads to positions of the new text. */
  lemma {:induction false} AdjustKeepsOrder(t: Lines, c: Change, p: Pos, q: Pos)
    requires Fits(t, c) && InText(t, p) && InText(t, q) && Cmp(p, q) <= 0
    ensures Cmp(Adjust(p, c), Adjust(q, c)) <= 0
    ensures InText(Replaced(t, c), Adjust(p, c))
  {
    EndOfChange(t, c);
    if Cmp(p, c.from) < 0 {
      BeforeStays(t, c, p);
    } else if Cmp(p, c.to) > 0 {
      AfterMoves(t, c, p);
    }
  }

  /** The two sides of a change in the flat text. */
  lemma {:induction false} FlatAdjust(t: Lines, c: Change, p: Pos)
    requires Fits(t, c) && InText(t, p)
    ensures Cmp(p, c.from) <= 0 ==>
      (InText(Replaced(t, c), p) && Index(Replaced(t, c), p) == Index(t, p) <= |Flat(t)| &&
       Index(t, p) <= |Flat(Replaced(t, c))| && Flat(Replaced(t, c))[..Index(t, p)] == Flat(t)[..Index(t, p)])
    ensures Cmp(c.to, p) <= 0 ==>
      (InText(Replaced(t, c), Adjust(p, c)) && Index(t, p) <= |Flat(t)| &&
       Index(Replaced(t, c), Adjust(p, c)) <= |Flat(Replaced(t, c))| &&
       Flat(Replaced(t, c))[Index(Replaced(t, c), Adjust(p, c))..] == Flat(t)[Index(t, p)..])
  {
    FlatAt(t, p);
    if Cmp(p, c.from) <= 0 {
      BeforeStays(t, c, p);
      FlatAt(Replaced(t, c), p);
    }
    if Cmp(c.to, p) <= 0 {
      AfterMoves(t, c, p);
      FlatAt(Replaced(t, c), Adjust(p, c));
    }
  }
}
