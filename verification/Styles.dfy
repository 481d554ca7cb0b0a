/** The style array of a line in codemirror.js: overlays merged into it, and the search in it. */
module Styles {
  import opened Options

  type Style = Option<string>

  /** A token: where it ends and how it is styled; it starts where the one before it ends. */
  datatype Token = Token(end: int, style: Style)

  predicate Styled(s: Style) {
    s.Some? && s.value != ""
  }

  /** The ends grow strictly from `from` to `to`: the tokens cover these characters without a gap. */
  predicate Tiles(st: seq<Token>, from: int, to: int)
    decreases |st|
  {
    if st == [] then from == to else from < st[0].end && Tiles(st[1..], st[0].end, to)
  }

  /** The style of character c. */
  function StyleAt(st: seq<Token>, c: int): Style
    decreases |st|
  {
    if st == [] then None else if c < st[0].end then st[0].style else StyleAt(st[1..], c)
  }

  lemma {:induction false} TilesForward(m: seq<Token>, from: int, to: int)
    requires Tiles(m, from, to)
    ensures from <= to && (m != [] ==> from < to && m[0].end <= to && m[|m| - 1].end == to)
    decreases |m|
  {
    if m != [] { TilesForward(m[1..], m[0].end, to); }
  }

  lemma {:induction false} TilesJoin(a: seq<Token>, b: seq<Token>, from: int, mid: int, to: int)
    requires Tiles(a, from, mid) && Tiles(b, mid, to)
    ensures Tiles(a + b, from, to)
    decreases |a|
  {
    if a == [] {
      assert a + b == b;
    } else {
      assert (a + b)[0] == a[0] && (a + b)[1..] == a[1..] + b;
      TilesJoin(a[1..], b, a[0].end, mid, to);
    }
  }

  lemma {:induction false} StyleJoin(a: seq<Token>, b: seq<Token>, from: int, mid: int, c: int)
    requires Tiles(a, from, mid) && from <= c
    ensures StyleAt(a + b, c) == if c < mid then StyleAt(a, c) else StyleAt(b, c)
    decreases |a|
  {
    if a == [] {
      assert a + b == b;
    } else {
      TilesForward(a[1..], a[0].end, mid);
      assert (a + b)[0] == a[0] && (a + b)[1..] == a[1..] + b;
      if c >= a[0].end { StyleJoin(a[1..], b, a[0].end, mid, c); }
    }
  }

  lemma {:induction false} TilesOne(t: Token, from: int)
    requires from < t.end
    ensures Tiles([t], from, t.end)
  {
    assert [t][1..] == [];
  }

  // ------------------------------------------------------------------ what an overlay means

  /** The style of a character of style x below an overlay of style `overlay`. */
  function Combined(x: Style, overlay: Style, solid: bool): Style {
    if !Styled(overlay) then x
    else if solid then Some("overlay " + overlay.value)
    else Some((if Styled(x) then x.value + " " else "") + "overlay " + overlay.value)
  }

  /** The overlay token has been laid over the characters from `from` to `to`, which had the styles of st. */
  ghost predicate Over(st: seq<Token>, st': seq<Token>, from: int, to: int, overlay: Style, solid: bool) {
    forall c {:trigger StyleAt(st', c)} :: from <= c < to ==> StyleAt(st', c) == Combined(StyleAt(st, c), overlay, solid)
  }

  /** The characters from `from` to `to` have the same style in both. */
  ghost predicate Same(st: seq<Token>, st': seq<Token>, from: int, to: int) {
    forall c {:trigger StyleAt(st', c)} :: from <= c < to ==> StyleAt(st', c) == StyleAt(st, c)
  }

  /** The tokens with the overlay added to the style of each. */
  function Restyled(m: seq<Token>, overlay: Style): (r: seq<Token>)
    ensures |r| == |m|
  {
    seq(|m|, i requires 0 <= i < |m| => m[i].(style := Combined(m[i].style, overlay, false)))
  }

  lemma {:induction false} RestyledOver(m: seq<Token>, from: int, to: int, overlay: Style)
    requires Tiles(m, from, to)
    ensures Tiles(Restyled(m, overlay), from, to) && Over(m, Restyled(m, overlay), from, to, overlay, false)
    decreases |m|
  {
    if m != [] {
      var r := Restyled(m, overlay);
      assert r[1..] == Restyled(m[1..], overlay);
      RestyledOver(m[1..], m[0].end, to, overlay);
    }
  }

  lemma {:induction false} SolidOver(m: seq<Token>, from: int, to: int, overlay: Style)
    requires from < to && Styled(overlay)
    ensures var r := [Token(to, Some("overlay " + overlay.value))];
      Tiles(r, from, to) && Over(m, r, from, to, overlay, true)
  {
    TilesOne(Token(to, Some("overlay " + overlay.value)), from);
  }

  // ------------------------------------------------------------------ one overlay token

  /** st is what is done (up to `at`, i entries) and what is not touched yet. */
  ghost predicate IsAt(st: seq<Token>, i: nat, at: int, n: int, done: seq<Token>, rest: seq<Token>) {
    i == |done| && st == done + rest && Tiles(done, 0, at) && Tiles(rest, at, n)
  }

  lemma MoveOne<T>(d: seq<T>, p: seq<T>, x: T, r: seq<T>)
    ensures d + (p + [x]) == (d + p) + [x] && (d + p) + ([x] + r) == (d + (p + [x])) + r
  {}

  /** What has been passed and what is left show what `given` showed. */
  ghost predicate Shown(given: seq<Token>, passed: seq<Token>, rest: seq<Token>, at0: int, at: int, n: int) {
    Tiles(passed, at0, at) && Same(given, passed, at0, at) && Same(given, rest, at, n)
  }

  /**
   * The inner loop of highlightLine: entries up to `end` are passed, and one that goes further is
   * cut in two.
   */
  method Align(st0: seq<Token>, i0: nat, at0: int, end: int, ghost n: int, ghost done: seq<Token>, ghost rest0: seq<Token>)
    returns (st: seq<Token>, i: nat, ghost passed: seq<Token>, ghost rest: seq<Token>)
    requires IsAt(st0, i0, at0, n, done, rest0) && at0 < end <= n
    ensures IsAt(st, i, end, n, done + passed, rest) && Shown(rest0, passed, rest, at0, end, n)
  {
    st, i, passed, rest := st0, i0, [], rest0;
    var at := at0;
    assert done + [] == done;
    while at < end
      invariant at0 <= at <= end && IsAt(st, i, at, n, done + passed, rest) && Shown(rest0, passed, rest, at0, at, n)
      decreases end - at
    {
      TilesForward(rest, at, n);
      assert rest != [] && st[i] == rest[0];
      var iEnd := st[i].end;
      if iEnd > end {
        CutPlace(st, i, at, end, n, done, passed, rest);
        PassShown(rest0, passed, rest, at0, at, n, Token(end, rest[0].style), rest);
        st := st[..i] + [Token(end, st[i].style)] + st[i..];
        passed := passed + [Token(end, rest[0].style)];
      } else {
        PassPlace(st, i, at, n, done, passed, rest);
        PassShown(rest0, passed, rest, at0, at, n, rest[0], rest[1..]);
        passed, rest := passed + [rest[0]], rest[1..];
      }
      i := i + 1;
      at := if end < iEnd then end else iEnd;
    }
  }

  lemma {:induction false} PassPlace(st: seq<Token>, i: nat, at: int, n: int, done: seq<Token>, passed: seq<Token>, rest: seq<Token>)
    requires IsAt(st, i, at, n, done + passed, rest) && rest != []
    ensures IsAt(st, i + 1, rest[0].end, n, done + (passed + [rest[0]]), rest[1..])
  {
    TilesOne(rest[0], at);
    TilesJoin(done + passed, [rest[0]], 0, at, rest[0].end);
    assert rest == [rest[0]] + rest[1..];
    MoveOne(done, passed, rest[0], rest[1..]);
  }

  lemma {:induction false} CutPlace(st: seq<Token>, i: nat, at: int, end: int, n: int, done: seq<Token>, passed: seq<Token>, rest: seq<Token>)
    requires IsAt(st, i, at, n, done + passed, rest) && rest != [] && at < end < rest[0].end
    ensures var t := Token(end, rest[0].style);
      IsAt(st[..i] + [t] + st[i..], i + 1, end, n, done + (passed + [t]), rest)
  {
    var t := Token(end, rest[0].style);
    TilesOne(t, at);
    TilesJoin(done + passed, [t], 0, at, end);
    assert st[..i] == done + passed && st[i..] == rest;
    MoveOne(done, passed, t, rest);
  }

  /** Token t, the first entry or a first part of it, joins the passed ones. */
  lemma {:induction false} PassShown(given: seq<Token>, passed: seq<Token>, rest: seq<Token>, at0: int, at: int, n: int, t: Token, rest': seq<Token>)
    requires Shown(given, passed, rest, at0, at, n) && at0 <= at && Tiles(rest, at, n) && rest != []
    requires at < t.end <= rest[0].end && t.style == rest[0].style
    requires rest' == if t.end == rest[0].end then rest[1..] else rest
    ensures Shown(given, passed + [t], rest', at0, t.end, n)
  {
    TilesOne(t, at);
    TilesForward(rest, at, n);
    TilesJoin(passed, [t], at0, at, t.end);
    forall c | at0 <= c < t.end ensures StyleAt(passed + [t], c) == StyleAt(given, c) {
      StyleJoin(passed, [t], at0, at, c);
      if c >= at { assert StyleAt(rest, c) == rest[0].style; }
    }
    forall c | t.end <= c < n ensures StyleAt(rest', c) == StyleAt(given, c) {
      assert StyleAt(rest, c) == StyleAt(given, c);
    }
  }

  /** The callback of highlightLine for one overlay token that ends at `end`. */
  method ApplyToken(st0: seq<Token>, i0: nat, at: int, end: int, overlay: Style, solid: bool,
                    ghost n: int, ghost done: seq<Token>, ghost rest0: seq<Token>)
    returns (st: seq<Token>, i: nat, ghost done': seq<Token>, ghost rest: seq<Token>)
    requires IsAt(st0, i0, at, n, done, rest0) && at < end <= n
    ensures IsAt(st, i, end, n, done', rest) && Same(done, done', 0, at)
    ensures Over(rest0, done', at, end, overlay, solid) && Same(rest0, rest, end, n)
  {
    ghost var passed;
    st, i, passed, rest := Align(st0, i0, at, end, n, done, rest0);
    var start := i0;
    ghost var mid := passed;
    if !Styled(overlay) {
    } else if solid {
      st := st[..start] + [Token(end, Some("overlay " + overlay.value))] + st[i..];
      i := start + 1;
      mid := [Token(end, Some("overlay " + overlay.value))];
      SolidOver(rest0, at, end, overlay);
    } else {
      st := RestyleEntries(st, start, i, overlay);
      mid := Restyled(passed, overlay);
      RestyledOver(passed, at, end, overlay);
    }
    done' := done + mid;
    TilesForward(done, 0, at);
    TilesJoin(done, mid, 0, at, end);
    DoneStyles(done, mid, rest0, at, end, overlay, solid);
  }

  lemma {:induction false} DoneStyles(done: seq<Token>, mid: seq<Token>, given: seq<Token>, at: int, end: int, overlay: Style, solid: bool)
    requires Tiles(done, 0, at) && 0 <= at && Over(given, mid, at, end, overlay, solid)
    ensures Same(done, done + mid, 0, at) && Over(given, done + mid, at, end, overlay, solid)
  {
    forall c | 0 <= c < at ensures StyleAt(done + mid, c) == StyleAt(done, c) { StyleJoin(done, mid, 0, at, c); }
    forall c | at <= c < end ensures StyleAt(done + mid, c) == Combined(StyleAt(given, c), overlay, solid) {
      StyleJoin(done, mid, 0, at, c);
      assert StyleAt(mid, c) == Combined(StyleAt(given, c), overlay, solid);
    }
  }

  /** The loop that adds the overlay to the entries from start to i. */
  method RestyleEntries(st0: seq<Token>, start: nat, i: nat, overlay: Style) returns (st: seq<Token>)
    requires start <= i <= |st0| && Styled(overlay)
    ensures st == st0[..start] + Restyled(st0[start..i], overlay) + st0[i..]
  {
    st := st0;
    for k := start to i
      invariant |st| == |st0| && st[..start] == st0[..start] && st[k..] == st0[k..]
      invariant forall j :: start <= j < k ==> st[j] == st0[j].(style := Combined(st0[j].style, overlay, false))
    {
      var cur := st[k].style;
      st := st[k := st[k].(style := Some((if Styled(cur) then cur.value + " " else "") + "overlay " + overlay.value))];
    }
    assert st[start..i] == Restyled(st0[start..i], overlay);
    assert st == st[..start] + st[start..i] + st[i..];
  }

  // ------------------------------------------------------------------ whole overlays

  function StartOf(st: seq<Token>, i: nat): int
    requires i <= |st|
  {
    if i == 0 then 0 else st[i - 1].end
  }

  /** Token i of a tiling covers the characters up to its end. */
  lemma {:induction false} TokenCovers(st: seq<Token>, from: int, to: int, i: nat, c: int)
    requires Tiles(st, from, to) && i < |st|
    ensures (if i == 0 then from else st[i - 1].end) < st[i].end <= to
    ensures (if i == 0 then from else st[i - 1].end) <= c < st[i].end ==> StyleAt(st, c) == st[i].style
    decreases |st|
  {
    TilesForward(st, from, to);
    if i > 0 {
      TokenCovers(st[1..], st[0].end, to, i - 1, c);
      assert st[1..][i - 1] == st[i];
      FirstIsLeast(st, from, to, i - 1);
    }
  }

  lemma {:induction false} FirstIsLeast(st: seq<Token>, from: int, to: int, i: nat)
    requires Tiles(st, from, to) && i < |st|
    ensures st[0].end <= st[i].end
    decreases i
  {
    if i > 0 {
      FirstIsLeast(st[1..], st[0].end, to, i - 1);
      assert st[1..][i - 1] == st[i] && Tiles(st[1..], st[0].end, to);
    }
  }

  /** An overlay: what its mode reports for the line, and whether it hides what is below. */
  datatype Overlay = Overlay(tokens: seq<Token>, solid: bool)

  /** All characters before `to` have got the overlay. */
  ghost predicate Laid(st: seq<Token>, st': seq<Token>, to: int, o: Overlay) {
    forall c {:trigger StyleAt(st', c)} :: 0 <= c < to ==> StyleAt(st', c) == Combined(StyleAt(st, c), StyleAt(o.tokens, c), o.solid)
  }

  /** One turn of the loop over the overlays. */
  method ApplyOverlay(st0: seq<Token>, n: nat, o: Overlay) returns (st: seq<Token>)
    requires Tiles(st0, 0, n) && Tiles(o.tokens, 0, n)
    ensures Tiles(st, 0, n) && Laid(st0, st, n, o)
  {
    st := st0;
    var i: nat, at := 0, 0;
    ghost var done: seq<Token>, rest := [], st0;
    for k := 0 to |o.tokens|
      invariant at == StartOf(o.tokens, k) <= n && IsAt(st, i, at, n, done, rest)
      invariant Laid(st0, done, at, o) && Same(st0, rest, at, n)
    {
      var t := o.tokens[k];
      TokenCovers(o.tokens, 0, n, k, at);
      ghost var before, given := done, rest;
      st, i, done, rest := ApplyToken(st, i, at, t.end, t.style, o.solid, n, done, rest);
      LaidFurther(st0, before, done, given, n, at, o, k);
      SameFurther(st0, given, rest, at, t.end, n);
      at := t.end;
    }
    TilesForward(o.tokens, 0, n);
    TilesForward(rest, n, n);
    assert st == done;
  }

  lemma {:induction false} LaidFurther(st0: seq<Token>, before: seq<Token>, done: seq<Token>, given: seq<Token>, n: int, at: int, o: Overlay, k: nat)
    requires Tiles(o.tokens, 0, n) && k < |o.tokens| && at == StartOf(o.tokens, k)
    requires Laid(st0, before, at, o) && Same(st0, given, at, n) && Same(before, done, 0, at)
    requires Over(given, done, at, o.tokens[k].end, o.tokens[k].style, o.solid) && o.tokens[k].end <= n
    ensures Laid(st0, done, o.tokens[k].end, o)
  {
    forall c | 0 <= c < o.tokens[k].end ensures StyleAt(done, c) == Combined(StyleAt(st0, c), StyleAt(o.tokens, c), o.solid) {
      TokenCovers(o.tokens, 0, n, k, c);
      if c < at {
        assert StyleAt(before, c) == Combined(StyleAt(st0, c), StyleAt(o.tokens, c), o.solid);
      } else {
        assert StyleAt(given, c) == StyleAt(st0, c);
      }
    }
  }

  lemma {:induction false} SameFurther(st0: seq<Token>, given: seq<Token>, rest: seq<Token>, at: int, end: int, n: int)
    requires Same(st0, given, at, n) && Same(given, rest, end, n) && at <= end
    ensures Same(st0, rest, end, n)
  {
    forall c | end <= c < n ensures StyleAt(rest, c) == StyleAt(st0, c) { assert StyleAt(given, c) == StyleAt(st0, c); }
  }

  /** A character of style x below the first k overlays. */
  function Layered(x: Style, overlays: seq<Overlay>, k: nat, c: int): Style
    requires k <= |overlays|
  {
    if k == 0 then x
    else Combined(Layered(x, overlays, k - 1, c), StyleAt(overlays[k - 1].tokens, c), overlays[k - 1].solid)
  }

  /** Each overlay has tokens that cover the line. */
  predicate Cover(overlays: seq<Overlay>, n: int) {
    forall k :: 0 <= k < |overlays| ==> Tiles(overlays[k].tokens, 0, n)
  }

  /** Every character has its base style below all the overlays. */
  ghost predicate Denotes(st: seq<Token>, base: seq<Token>, overlays: seq<Overlay>, k: nat, n: int)
    requires k <= |overlays|
  {
    forall c {:trigger StyleAt(st, c)} :: 0 <= c < n ==> StyleAt(st, c) == Layered(StyleAt(base, c), overlays, k, c)
  }

  // ------------------------------------------------------------------ how the style of a character is spelled

  const MARK: string := "overlay "

  /** Overlay j hides what is below it at character c. */
  predicate Hides(overlays: seq<Overlay>, c: int, j: nat)
    requires j < |overlays|
  {
    overlays[j].solid && Styled(StyleAt(overlays[j].tokens, c))
  }

  /** Whether some overlay hides what the mode of the document says about character c. */
  predicate Hidden(overlays: seq<Overlay>, k: nat, c: int)
    requires k <= |overlays|
  {
    exists j: nat :: j < k && Hides(overlays, c, j)
  }

  /** Overlay j says something about character c, and none of those behind it, up to k, hides it. */
  predicate Visible(overlays: seq<Overlay>, k: nat, c: int, j: nat)
    requires j < k <= |overlays|
  {
    Styled(StyleAt(overlays[j].tokens, c)) && forall i: nat :: j < i < k ==> !Hides(overlays, c, i)
  }

  /** What the visible ones of the first n overlays say, each with the mark in front. */
  function Marked(overlays: seq<Overlay>, k: nat, c: int, n: nat): seq<string>
    requires n <= k <= |overlays|
  {
    if n == 0 then []
    else
      Marked(overlays, k, c, n - 1)
      + if Visible(overlays, k, c, n - 1) then [MARK + StyleAt(overlays[n - 1].tokens, c).value] else []
  }

  /** The style of the mode, unless it is hidden, and those of the visible overlays, in order. */
  function Words(x: Style, overlays: seq<Overlay>, k: nat, c: int): seq<string>
    requires k <= |overlays|
  {
    (if Styled(x) && !Hidden(overlays, k, c) then [x.value] else []) + Marked(overlays, k, c, k)
  }

  function Joined(words: seq<string>): string {
    if words == [] then "" else if |words| == 1 then words[0] else Joined(words[..|words| - 1]) + " " + words[|words| - 1]
  }

  /** The style is spelled by these words; without any it is the one that the mode gave. */
  predicate Spells(words: seq<string>, x: Style, s: Style) {
    if words == [] then s == x && !Styled(x) else s == Some(Joined(words)) && Styled(s)
  }

  lemma {:induction false} JoinedMore(words: seq<string>, w: string)
    ensures Joined(words + [w]) == if words == [] then w else Joined(words) + " " + w
  {
    assert (words + [w])[..|words|] == words;
  }

  lemma {:induction false} MarkedAll(overlays: seq<Overlay>, k: nat, c: int, n: nat)
    requires n <= k < |overlays|
    ensures Marked(overlays, k + 1, c, n) == if Hides(overlays, c, k) then [] else Marked(overlays, k, c, n)
  {
    if n > 0 {
      MarkedAll(overlays, k, c, n - 1);
      assert Visible(overlays, k + 1, c, n - 1) <==> Visible(overlays, k, c, n - 1) && !Hides(overlays, c, k);
    }
  }

  lemma HiddenMore(overlays: seq<Overlay>, k: nat, c: int)
    requires k < |overlays|
    ensures Hidden(overlays, k + 1, c) <==> Hidden(overlays, k, c) || Hides(overlays, c, k)
  {
  }

  /** What an overlay says replaces all words before it, or joins them, or there is nothing that it says. */
  function WordsWith(words: seq<string>, overlay: Style, solid: bool): seq<string> {
    if !Styled(overlay) then words
    else if solid then [MARK + overlay.value]
    else words + [MARK + overlay.value]
  }

  lemma {:induction false} MarkedMore(overlays: seq<Overlay>, k: nat, c: int)
    requires k < |overlays|
    ensures Marked(overlays, k + 1, c, k + 1) == WordsWith(Marked(overlays, k, c, k), StyleAt(overlays[k].tokens, c), overlays[k].solid)
  {
    hide StyleAt;
    MarkedAll(overlays, k, c, k);
    assert Visible(overlays, k + 1, c, k) <==> Styled(StyleAt(overlays[k].tokens, c));
  }

  lemma {:induction false} WordsMore(x: Style, overlays: seq<Overlay>, k: nat, c: int)
    requires k < |overlays|
    ensures Words(x, overlays, k + 1, c) == WordsWith(Words(x, overlays, k, c), StyleAt(overlays[k].tokens, c), overlays[k].solid)
  {
    hide StyleAt, Hidden, Marked;
    MarkedMore(overlays, k, c);
    HiddenMore(overlays, k, c);
  }

  lemma {:induction false} SpellsMore(words: seq<string>, x: Style, y: Style, overlay: Style, solid: bool)
    requires Spells(words, x, y)
    ensures Spells(WordsWith(words, overlay, solid), x, Combined(y, overlay, solid))
  {
    if Styled(overlay) {
      var w := MARK + overlay.value;
      JoinedMore(words, w);
      assert Joined([w]) == w;
      if !solid {
        if words == [] {
          assert "" + MARK + overlay.value == w;
        } else {
          assert y.value + " " + MARK + overlay.value == y.value + " " + w;
        }
      }
    }
  }

  lemma NoLayers(x: Style, overlays: seq<Overlay>, c: int)
    ensures Spells(Words(x, overlays, 0, c), x, x)
  {
  }

  /** What the layers make of a character, word by word. */
  lemma {:induction false} LayeredSpells(x: Style, overlays: seq<Overlay>, k: nat, c: int)
    requires k <= |overlays|
    ensures Spells(Words(x, overlays, k, c), x, Layered(x, overlays, k, c))
    decreases k
  {
    hide Words, WordsWith, Combined, Spells, StyleAt;
    if k == 0 {
      NoLayers(x, overlays, c);
    } else {
      LayeredSpells(x, overlays, k - 1, c);
      WordsMore(x, overlays, k - 1, c);
      SpellsMore(Words(x, overlays, k - 1, c), x, Layered(x, overlays, k - 1, c), StyleAt(overlays[k - 1].tokens, c), overlays[k - 1].solid);
    }
  }

  /** highlightLine: `base` is what the mode of the document reports for a line of n characters. */
  method HighlightLine(base: seq<Token>, n: nat, overlays: seq<Overlay>) returns (st: seq<Token>)
    requires Tiles(base, 0, n) && Cover(overlays, n)
    ensures Tiles(st, 0, n) && Denotes(st, base, overlays, |overlays|, n)
    ensures forall c {:trigger StyleAt(st, c)} :: 0 <= c < n ==>
      Spells(Words(StyleAt(base, c), overlays, |overlays|, c), StyleAt(base, c), StyleAt(st, c))
  {
    st := base;
    for k := 0 to |overlays|
      invariant Tiles(st, 0, n) && Denotes(st, base, overlays, k, n)
    {
      st := ApplyOverlay(st, n, overlays[k]);
    }
    forall c | 0 <= c < n ensures Spells(Words(StyleAt(base, c), overlays, |overlays|, c), StyleAt(base, c), StyleAt(st, c)) {
      LayeredSpells(StyleAt(base, c), overlays, |overlays|, c);
    }
  }

  // ------------------------------------------------------------------ getTokenTypeAt

  lemma {:induction false} EndsGrow(st: seq<Token>, n: int, i: nat, j: nat)
    requires Tiles(st, 0, n) && i <= j < |st|
    ensures st[i].end <= st[j].end && (i < j ==> st[i].end < st[j].end)
    decreases j
  {
    if i < j {
      EndsGrow(st, n, i, j - 1);
      TokenCovers(st, 0, n, j, 0);
    }
  }

  /** The binary search: the one entry that covers the character before ch. */
  method EntryAt(st: seq<Token>, n: nat, ch: nat) returns (mid: nat)
    requires Tiles(st, 0, n) && 0 < ch <= n
    ensures mid < |st| && StartOf(st, mid) < ch <= st[mid].end && StyleAt(st, ch - 1) == st[mid].style
    ensures forall j :: 0 <= j < |st| && StartOf(st, j) < ch <= st[j].end ==> j == mid
  {
    TilesForward(st, 0, n);
    var before, after: nat := 0, |st|;
    while true
      invariant before <= after <= |st| && StartOf(st, before) < ch && (after < |st| ==> ch <= StartOf(st, after))
      invariant ch <= StartOf(st, after)
      decreases after - before
    {
      mid := (before + after) / 2;
      if (if mid != 0 then st[mid - 1].end else 0) >= ch {
        after := mid;
      } else if st[mid].end < ch {
        before := mid + 1;
      } else {
        break;
      }
    }
    TokenCovers(st, 0, n, mid, ch - 1);
    forall j | 0 <= j < |st| && StartOf(st, j) < ch <= st[j].end ensures j == mid {
      if j < mid { EndsGrow(st, n, j, mid - 1); }
      if mid < j { EndsGrow(st, n, mid, j - 1); }
    }
  }

  predicate OccursAt(s: string, part: string, j: int) {
    0 <= j <= |s| - |part| && s[j..j + |part|] == part
  }

  /** Where `part` first occurs in s from position i on, or -1. */
  function IndexFrom(s: string, part: string, i: nat): (r: int)
    ensures r == -1 || (r >= i && OccursAt(s, part, r))
    ensures forall j :: i <= j && OccursAt(s, part, j) ==> 0 <= r <= j
    decreases |s| - i
  {
    if i + |part| > |s| then -1
    else if OccursAt(s, part, i) then i
    else IndexFrom(s, part, i + 1)
  }

  /** The part of a style before the mark of its first overlay. */
  function BaseOf(style: Style): Style {
    if !Styled(style) then style
    else
      var cut := IndexFrom(style.value, MARK, 0);
      if cut < 0 then style else if cut == 0 then None else Some(style.value[..cut - 1])
  }

  /** The character that a position is asked about: the one in front of it, or the first one. */
  function CharBefore(ch: nat): nat {
    if ch == 0 then 0 else ch - 1
  }

  method GetTokenTypeAt(st: seq<Token>, n: nat, ch: nat) returns (r: Style)
    requires Tiles(st, 0, n) && ch <= n
    ensures r == if n == 0 then None else BaseOf(StyleAt(st, CharBefore(ch)))
  {
    var type_: Style := None;
    TilesForward(st, 0, n);
    if ch == 0 {
      if st != [] { type_ := st[0].style; }
    } else {
      var mid := EntryAt(st, n, ch);
      type_ := st[mid].style;
    }
    r := BaseOf(type_);
  }

  /** Together with the mark behind it, the style does not show the mark earlier. */
  predicate Clean(x: string) {
    IndexFrom(x + " " + MARK, MARK, 0) == |x| + 1
  }

  /** y is x, or x with the marks of overlays behind it. */
  ghost predicate Under(x: Style, y: Style) {
    y == x || (Styled(y) && (if Styled(x) then x.value + " " else "") + MARK <= y.value)
  }

  lemma {:induction false} UnderMore(x: Style, y: Style, overlay: Style)
    requires Under(x, y)
    ensures Under(x, Combined(y, overlay, false))
  {
    var front := (if Styled(x) then x.value + " " else "") + MARK;
    if Styled(overlay) {
      var z := Combined(y, overlay, false).value;
      if y == x {
        assert z == front + overlay.value;
      } else {
        assert z == y.value + (" " + MARK + overlay.value);
        assert z[..|front|] == y.value[..|front|];
      }
    }
  }

  lemma {:induction false} OccursInFront(s: string, front: string, j: nat)
    requires front <= s && j + |MARK| <= |front| && OccursAt(s, MARK, j)
    ensures OccursAt(front, MARK, j)
  {
    assert s[j..j + |MARK|] == front[j..j + |MARK|];
  }

  /** Without its overlays, such a style is x again; if x is no style, there is nothing left of it. */
  lemma {:induction false} BaseOfUnder(x: Style, y: Style)
    requires Under(x, y) && (Styled(x) ==> Clean(x.value))
    ensures y != x ==> BaseOf(y) == if Styled(x) then x else None
    ensures y == x && (Styled(x) ==> IndexFrom(x.value, MARK, 0) < 0) ==> BaseOf(y) == x
  {
    hide IndexFrom;
    if y != x {
      var front := (if Styled(x) then x.value + " " else "") + MARK;
      var at := |front| - |MARK|;
      assert y.value[at..at + |MARK|] == front[at..at + |MARK|] == MARK;
      assert OccursAt(y.value, MARK, at);
      if Styled(x) {
        forall j | 0 <= j < at ensures !OccursAt(y.value, MARK, j) {
          if OccursAt(y.value, MARK, j) { OccursInFront(y.value, front, j); }
        }
        assert y.value[..at - 1] == front[..at - 1] == x.value;
      }
    }
  }

  lemma {:induction false} LayeredUnder(x: Style, overlays: seq<Overlay>, k: nat, c: int)
    requires k <= |overlays|
    ensures !Hidden(overlays, k, c) ==> Under(x, Layered(x, overlays, k, c))
    ensures Hidden(overlays, k, c) ==> Under(None, Layered(x, overlays, k, c)) && Layered(x, overlays, k, c) != None
  {
    if k > 0 {
      LayeredUnder(x, overlays, k - 1, c);
      var y, o := Layered(x, overlays, k - 1, c), overlays[k - 1];
      var s := StyleAt(o.tokens, c);
      if o.solid && Styled(s) {
        assert Hides(overlays, c, k - 1);
      } else {
        assert Hidden(overlays, k, c) <==> Hidden(overlays, k - 1, c);
        UnderMore(if Hidden(overlays, k - 1, c) then None else x, y, s);
      }
    }
  }

  /**
   * getTokenTypeAt gives back what the mode of the document said, and no style where it said nothing
   * or an overlay hides it.
   */
  method TokenTypeIsBase(base: seq<Token>, n: nat, overlays: seq<Overlay>, ch: nat) returns (r: Style)
    requires Tiles(base, 0, n) && 0 < n && ch <= n && Cover(overlays, n)
    requires var x := StyleAt(base, CharBefore(ch)); Styled(x) ==> Clean(x.value) && IndexFrom(x.value, MARK, 0) < 0
    ensures var x := StyleAt(base, CharBefore(ch));
      if Styled(x) && !Hidden(overlays, |overlays|, CharBefore(ch)) then r == x else !Styled(r)
  {
    var st := HighlightLine(base, n, overlays);
    r := GetTokenTypeAt(st, n, ch);
    ghost var c := CharBefore(ch);
    ghost var x := StyleAt(base, c);
    LayeredUnder(x, overlays, |overlays|, c);
    BaseOfUnder(if Hidden(overlays, |overlays|, c) then None else x, Layered(x, overlays, |overlays|, c));
  }
}
