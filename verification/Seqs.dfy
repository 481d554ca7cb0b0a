/** Concatenation of a sequence of sequences, used for buffers, tree nodes and lines of text. */
module Seqs {
  function Concat<T>(parts: seq<seq<T>>): seq<T> {
    if parts == [] then [] else parts[0] + Concat(parts[1..])
  }

  lemma {:induction false} ConcatOne<T>(part: seq<T>)
    ensures Concat([part]) == part
  {
    assert [part][1..] == [];
  }

  lemma {:induction false} ConcatAppend<T>(a: seq<seq<T>>, b: seq<seq<T>>)
    ensures Concat(a + b) == Concat(a) + Concat(b)
    decreases |a|
  {
    if a == [] {
      assert a + b == b;
    } else {
      assert (a + b)[1..] == a[1..] + b && (a + b)[0] == a[0];
      ConcatAppend(a[1..], b);
      assert a[0] + (Concat(a[1..]) + Concat(b)) == a[0] + Concat(a[1..]) + Concat(b);
    }
  }

  lemma {:induction false} ConcatSnoc<T>(parts: seq<seq<T>>, i: nat)
    requires i < |parts|
    ensures Concat(parts[..i + 1]) == Concat(parts[..i]) + parts[i]
  {
    assert parts[..i + 1] == parts[..i] + [parts[i]];
    ConcatAppend(parts[..i], [parts[i]]);
    ConcatOne(parts[i]);
  }

  /** The concatenation around part i. */
  lemma {:induction false} ConcatAround<T>(parts: seq<seq<T>>, i: nat)
    requires i < |parts|
    ensures Concat(parts) == Concat(parts[..i]) + parts[i] + Concat(parts[i + 1..])
  {
    assert parts == parts[..i + 1] + parts[i + 1..];
    ConcatAppend(parts[..i + 1], parts[i + 1..]);
    ConcatSnoc(parts, i);
  }

  /** The place in the whole of element k of part i. */
  lemma {:induction false} ConcatAt<T>(parts: seq<seq<T>>, i: nat, k: nat)
    requires i < |parts| && k < |parts[i]|
    ensures |Concat(parts[..i])| + k < |Concat(parts)| && Concat(parts)[|Concat(parts[..i])| + k] == parts[i][k]
  {
    ConcatAround(parts, i);
  }

  /** Replacing part i by `x`. */
  lemma {:induction false} ConcatUpdate<T>(parts: seq<seq<T>>, i: nat, x: seq<T>)
    requires i < |parts|
    ensures Concat(parts[i := x]) == Concat(parts[..i]) + x + Concat(parts[i + 1..])
  {
    var p := parts[i := x];
    ConcatAround(p, i);
    assert p[..i] == parts[..i] && p[i + 1..] == parts[i + 1..];
  }

  /** `s` with `x` put in at position `at`. */
  function Splice<T>(s: seq<T>, at: nat, x: seq<T>): seq<T>
    requires at <= |s|
  {
    s[..at] + x + s[at..]
  }

  /** `s` without the `n` elements from `at` on. */
  function Cut<T>(s: seq<T>, at: nat, n: nat): seq<T>
    requires at + n <= |s|
  {
    s[..at] + s[at + n..]
  }

  /** Splicing into one part is splicing into the whole at the shifted place. */
  lemma {:induction false} ConcatSplice<T>(parts: seq<seq<T>>, i: nat, at: nat, x: seq<T>)
    requires i < |parts| && at <= |parts[i]|
    ensures |Concat(parts[..i])| + at <= |Concat(parts)|
    ensures Concat(parts[i := Splice(parts[i], at, x)]) == Splice(Concat(parts), |Concat(parts[..i])| + at, x)
  {
    ConcatAround(parts, i);
    ConcatUpdate(parts, i, Splice(parts[i], at, x));
    SpliceInMiddle(Concat(parts[..i]), parts[i], Concat(parts[i + 1..]), at, x);
  }

  lemma {:induction false} SpliceInMiddle<T>(a: seq<T>, m: seq<T>, z: seq<T>, at: nat, x: seq<T>)
    requires at <= |m|
    ensures Splice(a + m + z, |a| + at, x) == a + Splice(m, at, x) + z
  {
    var s := a + m + z;
    assert s[..|a| + at] == a + m[..at];
    assert s[|a| + at..] == m[at..] + z;
  }

  ghost predicate NoDup<T>(s: seq<T>) {
    forall i, j :: 0 <= i < j < |s| ==> s[i] != s[j]
  }

  ghost predicate Apart<T>(a: seq<T>, b: seq<T>) {
    forall x :: x in a ==> x !in b
  }

  lemma {:induction false} NoDupAppend<T>(a: seq<T>, b: seq<T>)
    requires NoDup(a) && NoDup(b) && Apart(a, b)
    ensures NoDup(a + b)
  {
    var s := a + b;
    forall i, j | 0 <= i < j < |s| ensures s[i] != s[j] {
      if i < |a| <= j { assert s[i] in a && s[j] in b; }
    }
  }

  lemma {:induction false} NoDupSplice<T>(s: seq<T>, at: nat, x: seq<T>)
    requires at <= |s| && NoDup(s) && NoDup(x) && Apart(x, s)
    ensures NoDup(Splice(s, at, x))
  {
    NoDupAppend(s[..at], x);
    NoDupAppend(s[..at] + x, s[at..]);
  }

  /** Where piece j of 25 elements starts when the first `keep` elements are not cut. */
  function Start(keep: nat, j: nat): nat {
    keep + 25 * j
  }

  predicate PieceFits<T>(s: seq<T>, keep: nat, j: nat) {
    Start(keep, j) <= Start(keep, j + 1) <= |s|
  }

  function Piece<T>(s: seq<T>, keep: nat, j: nat): seq<T>
    requires PieceFits(s, keep, j)
  {
    s[Start(keep, j)..Start(keep, j + 1)]
  }

  lemma {:induction false} PiecesCover<T>(s: seq<T>, keep: nat, pieces: seq<seq<T>>)
    requires |s| == Start(keep, |pieces|)
    requires forall j :: 0 <= j < |pieces| ==> PieceFits(s, keep, j) && pieces[j] == Piece(s, keep, j)
    ensures Concat(pieces) == s[keep..]
    decreases |pieces|
  {
    if pieces != [] {
      var rest := pieces[1..];
      forall j | 0 <= j < |rest| ensures PieceFits(s, keep + 25, j) && rest[j] == Piece(s, keep + 25, j) {
        assert PieceFits(s, keep, j + 1);
      }
      PiecesCover(s, keep + 25, rest);
      assert PieceFits(s, keep, 0) && pieces[0] == s[keep..keep + 25];
      assert s[keep..] == s[keep..keep + 25] + s[keep + 25..];
    }
  }

  lemma {:induction false} NotInTail<T>(s: seq<T>, k: nat, from: nat)
    requires NoDup(s) && k < from <= |s|
    ensures s[k] !in s[from..]
  {
    forall i | 0 <= i < |s| - from ensures s[from..][i] != s[k] {
      assert s[from..][i] == s[from + i];
    }
  }

  lemma WholeTail<T>(s: seq<T>, from: nat)
    requires from <= |s|
    ensures s[from..|s|] == s[from..]
  {
  }

  lemma TakeThenSlice<T>(s: seq<T>, n: nat, i: nat, j: nat)
    requires i <= j <= n <= |s|
    ensures s[..n][i..j] == s[i..j]
  {
  }

  lemma DropThenSlice<T>(s: seq<T>, from: nat, i: nat, j: nat)
    requires i <= j && from + j <= |s|
    ensures s[from..][i..j] == s[from + i..from + j]
  {
  }

  /** A part of a part, by the places in the whole. */
  lemma {:induction false} SliceOfSlice<T>(s: seq<T>, from: nat, to: nat, i: nat, j: nat)
    requires from <= i <= j <= to <= |s|
    ensures s[from..to][i - from..j - from] == s[i..j]
  {
    var a, b := s[from..to][i - from..j - from], s[i..j];
    assert |a| == |b|;
    forall k | 0 <= k < |a| ensures a[k] == b[k] {}
  }
}
