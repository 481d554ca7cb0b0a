/** getBoundaryPositions of NanoHTTPD: a search for several matches through a window that is refilled in place. */
module Boundary {
  import opened Bytes

  const BLOCK: nat := 4 * 1024

  predicate OccursAt(body: seq<byte>, boundary: seq<byte>, p: int) {
    0 <= p <= |body| - |boundary| && body[p..p + |boundary|] == boundary
  }

  /** The occurrences before `limit`, in order. */
  ghost predicate Finds(res: seq<int>, body: seq<byte>, boundary: seq<byte>, limit: int) {
    && (forall i, j :: 0 <= i < j < |res| ==> res[i] < res[j])
    && (forall i :: 0 <= i < |res| ==> res[i] < limit && OccursAt(body, boundary, res[i]))
    && (forall p :: OccursAt(body, boundary, p) && p < limit ==> p in res)
  }

  /** Only one list is the list of the occurrences before `limit`. */
  lemma {:induction false} FindsUnique(a: seq<int>, b: seq<int>, body: seq<byte>, boundary: seq<byte>, limit: int)
    requires Finds(a, body, boundary, limit) && Finds(b, body, boundary, limit)
    ensures a == b
    decreases |a|
  {
    hide Finds;
    SameLast(a, b, body, boundary, limit);
    if a != [] {
      var n, m := |a| - 1, |b| - 1;
      Shorter(a, body, boundary, limit);
      Shorter(b, body, boundary, limit);
      FindsUnique(a[..n], b[..m], body, boundary, a[n]);
      assert a == a[..n] + [a[n]] && b == b[..m] + [b[m]];
    }
  }

  lemma {:induction false} SameLast(a: seq<int>, b: seq<int>, body: seq<byte>, boundary: seq<byte>, limit: int)
    requires Finds(a, body, boundary, limit) && Finds(b, body, boundary, limit)
    ensures |a| > 0 <==> |b| > 0
    ensures |a| > 0 ==> a[|a| - 1] == b[|b| - 1]
  {
    if b != [] { Found(a, body, boundary, limit, b[|b| - 1]); }
    if a != [] { Found(b, body, boundary, limit, a[|a| - 1]); }
  }

  lemma {:induction false} Found(a: seq<int>, body: seq<byte>, boundary: seq<byte>, limit: int, p: int)
    requires Finds(a, body, boundary, limit) && OccursAt(body, boundary, p) && p < limit
    ensures a != [] && p in a && p <= a[|a| - 1]
  {
    var i :| 0 <= i < |a| && a[i] == p;
  }

  lemma {:induction false} Shorter(a: seq<int>, body: seq<byte>, boundary: seq<byte>, limit: int)
    requires Finds(a, body, boundary, limit) && a != []
    ensures Finds(a[..|a| - 1], body, boundary, a[|a| - 1])
  {
    var n := |a| - 1;
    forall p | OccursAt(body, boundary, p) && p < a[n] ensures p in a[..n] {
      var i :| 0 <= i < |a| && a[i] == p;
      assert a[..n][i] == p;
    }
  }

  lemma {:induction false} FindsNext(res: seq<int>, body: seq<byte>, boundary: seq<byte>, limit: int, found: bool)
    requires Finds(res, body, boundary, limit) && found == OccursAt(body, boundary, limit)
    ensures Finds(if found then res + [limit] else res, body, boundary, limit + 1)
  {
    var r := if found then res + [limit] else res;
    forall p | OccursAt(body, boundary, p) && p < limit + 1 ensures p in r {
      if p < limit { assert p in res; }
    }
  }

  /** The inner loop: whether the boundary starts at j in the window. */
  method MatchesAt(window: array<byte>, boundary: seq<byte>, j: nat) returns (found: bool)
    requires j + |boundary| <= window.Length && boundary != []
    ensures found <==> window[j..j + |boundary|] == boundary
  {
    for i := 0 to |boundary|
      invariant window[j..j + i] == boundary[..i]
    {
      if window[j + i] != boundary[i] {
        assert window[j..j + |boundary|][i] != boundary[i];
        return false;
      }
      assert window[j..j + i + 1] == window[j..j + i] + [window[j + i]];
    }
    found := true;
  }

  /** One pass over the window: the matches that start in its first newBytes bytes. */
  method SearchWindow(window: array<byte>, body: seq<byte>, boundary: seq<byte>, pos: nat, newBytes: nat, res0: seq<int>)
    returns (res: seq<int>)
    requires boundary != [] && newBytes + |boundary| <= window.Length
    requires pos + newBytes + |boundary| <= |body|
    requires window[..newBytes + |boundary|] == body[pos..pos + newBytes + |boundary|]
    requires Finds(res0, body, boundary, pos)
    ensures Finds(res, body, boundary, pos + newBytes)
  {
    res := res0;
    ghost var w := window[..newBytes + |boundary|];
    for j := 0 to newBytes
      invariant Finds(res, body, boundary, pos + j)
    {
      var found := MatchesAt(window, boundary, j);
      SliceOfPrefix(window[..], newBytes + |boundary|, j, |boundary|);
      SearchStep(w, body, boundary, pos, j, res, found);
      if found { res := res + [pos + j]; }
    }
  }

  lemma {:induction false} SliceOfPrefix<T>(a: seq<T>, n: nat, j: nat, m: nat)
    requires j + m <= n <= |a|
    ensures a[..n][j..j + m] == a[j..j + m]
  {
    var x, y := a[..n][j..j + m], a[j..j + m];
    forall k | 0 <= k < m ensures x[k] == y[k] {
      assert x[k] == a[..n][j + k];
    }
  }

  lemma {:induction false} SearchStep(w: seq<byte>, body: seq<byte>, boundary: seq<byte>, pos: nat, j: nat, res: seq<int>, found: bool)
    requires pos + |w| <= |body| && w == body[pos..pos + |w|] && j + |boundary| <= |w|
    requires Finds(res, body, boundary, pos + j) && found == (w[j..j + |boundary|] == boundary)
    ensures Finds(if found then res + [pos + j] else res, body, boundary, pos + j + 1)
  {
    hide Finds;
    SameBytes(w, body, pos, j, |boundary|);
    FindsNext(res, body, boundary, pos + j, found);
  }

  lemma {:induction false} SameBytes(w: seq<byte>, body: seq<byte>, pos: nat, j: nat, m: nat)
    requires pos + |w| <= |body| && w == body[pos..pos + |w|] && j + m <= |w|
    ensures w[j..j + m] == body[pos + j..pos + j + m]
  {
    var x, y := w[j..j + m], body[pos + j..pos + j + m];
    forall k | 0 <= k < m ensures x[k] == y[k] {
      assert x[k] == body[pos..pos + |w|][j + k];
    }
  }

  /** The bytes that stay move to the front, and the next ones of the body follow them. */
  method Refill(window: array<byte>, body: seq<byte>, m: nat, pos: nat, next: nat) returns (newBytes: nat)
    requires window.Length == BLOCK + m && pos + m == next <= |body|
    requires next < |body| ==> window[BLOCK..] == body[pos..pos + m]
    modifies window
    ensures newBytes == if |body| - next < BLOCK then |body| - next else BLOCK
    ensures newBytes > 0 ==> window[..newBytes + m] == body[pos..pos + newBytes + m]
  {
    ghost var kept := window[BLOCK..];
    forall k | 0 <= k < m { window[k] := window[BLOCK + k]; }
    assert window[..m] == kept;
    newBytes := window.Length - m;
    if |body| - next < newBytes { newBytes := |body| - next; }
    forall k | 0 <= k < newBytes { window[m + k] := body[next + k]; }
    if newBytes > 0 {
      ghost var x, y := window[m..m + newBytes], body[next..next + newBytes];
      forall k | 0 <= k < newBytes ensures x[k] == y[k] {
        assert x[k] == window[m + k];
      }
      Joined(window[..], body, m, pos, newBytes);
    }
  }

  /** The overlap and the bytes behind it are one stretch of the body. */
  lemma {:induction false} Joined(window: seq<byte>, body: seq<byte>, m: nat, pos: nat, n: nat)
    requires m + n <= |window| && pos + m + n <= |body| && window[..m] == body[pos..pos + m]
    requires window[m..m + n] == body[pos + m..pos + m + n]
    ensures window[..n + m] == body[pos..pos + n + m]
  {
    assert window[..n + m] == window[..m] + window[m..m + n];
    assert body[pos..pos + n + m] == body[pos..pos + m] + body[pos + m..pos + m + n];
  }

  /**
   * getBoundaryPositions: for a boundary that is not empty, exactly the occurrences that end
   * before the last byte of the body.
   */
  method GetBoundaryPositions(body: seq<byte>, boundary: seq<byte>) returns (res: seq<int>)
    ensures boundary == [] ==> res == []
    ensures boundary != [] ==> Finds(res, body, boundary, |body| - |boundary|)
  {
    res := [];
    if |body| < |boundary| { return; }
    var m, pos := |boundary|, 0;
    var window := new byte[BLOCK + m](_ => 0);
    var next := if |body| < window.Length then |body| else window.Length;
    forall k | 0 <= k < next { window[k] := body[k]; }
    assert window[..next] == body[..next];
    var newBytes := next - m;
    if m == 0 { return; }
    while true
      invariant 0 <= newBytes && newBytes + m <= window.Length && pos + newBytes + m == next <= |body|
      invariant window[..newBytes + m] == body[pos..pos + newBytes + m]
      invariant next < |body| ==> newBytes == BLOCK
      invariant Finds(res, body, boundary, pos)
      decreases |body| - pos
    {
      res := SearchWindow(window, body, boundary, pos, newBytes, res);
      if next < |body| {
        SameBytes(window[..newBytes + m], body, pos, BLOCK, m);
        assert window[BLOCK..] == window[..newBytes + m][BLOCK..BLOCK + m];
      }
      pos := pos + newBytes;
      newBytes := Refill(window, body, m, pos, next);
      next := next + newBytes;
      if newBytes <= 0 { break; }
    }
  }

  /** The search finds all occurrences exactly if none ends with the last byte of the body. */
  lemma {:induction false} MissesLastOnly(res: seq<int>, body: seq<byte>, boundary: seq<byte>)
    requires boundary != [] && Finds(res, body, boundary, |body| - |boundary|)
    ensures Finds(res, body, boundary, |body| + 1) <==> !OccursAt(body, boundary, |body| - |boundary|)
  {
    var last := |body| - |boundary|;
    if OccursAt(body, boundary, last) {
      if last in res { assert false; }
    }
  }
}
