/** Runs of an InfinityStringArray: clients add, set and get while the flusher works. */
module StoreRuns {
  import opened Bytes
  import opened Options
  import opened Seqs
  import opened Cache
  import opened PartFile
  import opened Sectors
  import opened StringArray

  datatype Call = Add(bytes: seq<byte>) | Set(index: nat, bytes: seq<byte>) | Get(index: nat) | FlushOne

  datatype Answer = Index(index: nat) | Done(ok: bool) | Bytes(bytes: Option<seq<byte>>) | Nothing

  // ------------------------------------------------------------------ the plain sequence

  /** The answer of a call on a plain sequence of byte strings. */
  function Reply(items: seq<seq<byte>>, c: Call): Answer {
    match c
    case Add(b) => Index(|items|)
    case Set(i, b) => Done(i < |items|)
    case Get(i) => Answer.Bytes(if i < |items| then Some(items[i]) else None)
    case FlushOne => Nothing
  }

  /** The sequence after the call. */
  function After(items: seq<seq<byte>>, c: Call): seq<seq<byte>> {
    match c
    case Add(b) => items + [b]
    case Set(i, b) => if i < |items| then items[i := b] else items
    case Get(i) => items
    case FlushOne => items
  }

  function Replies(items: seq<seq<byte>>, run: seq<Call>): seq<Answer>
    decreases |run|
  {
    if run == [] then [] else [Reply(items, run[0])] + Replies(After(items, run[0]), run[1..])
  }

  function Final(items: seq<seq<byte>>, run: seq<Call>): seq<seq<byte>>
    decreases |run|
  {
    if run == [] then items else Final(After(items, run[0]), run[1..])
  }

  // ------------------------------------------------------------------ where the items are

  /** The slots of an array and the length of its data file, which a caller can work out from the calls. */
  datatype Extents = Extents(slots: seq<Slot>, sum: nat)

  ghost function Items(slots: seq<Slot>): (r: seq<seq<byte>>)
    ensures |r| == |slots|
  {
    seq(|slots|, i requires 0 <= i < |slots| => slots[i].item)
  }

  function Moved(p: Extents, c: Call): Extents {
    match c
    case Add(b) => Extents(p.slots + [Added(b, p.sum)], p.sum + Added(b, p.sum).alloc)
    case Set(i, b) =>
      if i < |p.slots| then Extents(p.slots[i := AfterSet(p.slots[i], b, p.sum)], p.sum + GrownBy(p.slots[i], b, p.sum)) else p
    case Get(i) => p
    case FlushOne => p
  }

  /** The first byte of the part whose beginning a risky read may hide. */
  function HiddenAt(d: Slot, partSize: nat): int {
    if d.alloc == 0 then 0 else d.start - partSize
  }

  /** The item has the byte at this position. */
  predicate Covers(d: Slot, at: int) {
    d.start <= at < d.start + |d.item|
  }

  /**
   * Bytes that fit into one sector; and no read that may hide a byte of an item, nor a byte set
   * for an item without a sector, which may overwrite one.
   */
  predicate Safe(p: Extents, c: Call, partSize: nat)
    requires partSize > 0
  {
    match c
    case Add(b) => |b| <= MAX_LENGTH && SectorLength(|b|) <= partSize
    case Set(i, b) =>
      && |b| <= MAX_LENGTH && SectorLength(|b|) <= partSize
      && (i < |p.slots| ==> !Clash(p.slots[i], b, p.sum))
    case Get(i) =>
      i < |p.slots| && Risky(partSize, p.slots[i]) ==>
        forall j :: 0 <= j < |p.slots| ==> !Covers(p.slots[j], HiddenAt(p.slots[i], partSize))
    case FlushOne => true
  }

  /** By how much a call may raise the count of cached bytes too far. */
  function Cost(p: Extents, c: Call): nat {
    match c
    case Set(i, b) => if i < |p.slots| && !Clash(p.slots[i], b, p.sum) then SetCost(p.slots[i], b) else 0
    case _ => 0
  }

  /** The same for a run, as far as it is safe. */
  function TotalCost(p: Extents, run: seq<Call>, partSize: nat): nat
    requires partSize > 0
    decreases |run|
  {
    if run == [] || !Safe(p, run[0], partSize) then 0 else Cost(p, run[0]) + TotalCost(Moved(p, run[0]), run[1..], partSize)
  }

  // ------------------------------------------------------------------ one call

  ghost function Shape(a: InfinityStringArray): Extents
    reads a, a.data
  {
    Extents(a.slots, a.data.sumFilesSize)
  }

  /** Where the offset that a risky read probes begins. */
  lemma {:induction false} ProbeIsHidden(d: Slot, name: nat, p: nat) returns (q: nat)
    requires p > 0 && Risky(p, d) && (d.alloc == 0 ==> d.start == 0)
    ensures q * p == HiddenAt(d, p) && ProbeKey(name, p, d.start) == Key(File(name, q), 0)
  {
    DivMod(d.start, p);
    q := 0;
    if d.alloc > 0 {
      q := d.start / p - 1;
      assert q * p == d.start / p * p - p;
    }
  }

  /** The risky read that this call would be has no victim. */
  lemma {:induction false} NothingToHide(a: InfinityStringArray, i: nat)
    requires a.Valid() && i < |a.slots| && Risky(a.data.partSize, a.slots[i]) && Safe(Shape(a), Get(i), a.data.partSize)
    ensures NoVictim(a.Files(), ProbeKey(a.data.name, a.data.partSize, a.slots[i].start), a.slots)
  {
    var s := a.thread.Now();
    assert SlotOk(s, a.room, a.Files(), a.data.sumFilesSize, i, a.slots[i]);
    var q := ProbeIsHidden(a.slots[i], a.data.name, a.data.partSize);
    NoneCovers(s, a.room, a.Files(), a.data.sumFilesSize, a.slots, q);
  }

  lemma {:induction false} NoneCovers(s: State, room: map<Key, nat>, f: Layout, sum: nat, slots: seq<Slot>, q: nat)
    requires Represents(s, room, f, sum, slots) && forall j :: 0 <= j < |slots| ==> !Covers(slots[j], q * f.partSize)
    ensures NoVictim(f, Key(File(f.data, q), 0), slots)
  {
    forall j | 0 <= j < |slots| ensures !Victim(f, Key(File(f.data, q), 0), slots[j]) {
      assert SlotOk(s, room, f, sum, j, slots[j]);
      if slots[j].alloc > 0 { InSector(room, f, sum, slots[j]); }
      VictimCovers(f, slots[j], q);
    }
  }

  lemma {:induction false} SectorBelowMax(n: nat)
    requires n <= MAX_LENGTH
    ensures 1 <= SectorLength(n) <= MAX_LENGTH
  {
    assert Pow2(15) == 0x8000;
    PowersMultiply(15, 15);
    SectorIsLeast(n, 30);
  }

  /** One safe call: it answers like the sequence, and it returns if the count of cached bytes leaves room for a part. */
  method Perform(a: InfinityStringArray, c: Call) returns (answer: Answer, hung: bool)
    requires a.Valid() && Safe(Shape(a), c, a.data.partSize) && a.data.sumFilesSize + MAX_LENGTH < TWO_63
    modifies a, a.thread, a.data, a.meta
    ensures hung ==> a.thread.Stuck() && old(a.Excess()) + a.data.partSize > a.thread.maxCacheSize
    ensures !hung ==> a.Valid() && answer == Reply(Items(old(a.slots)), c) && Shape(a) == Moved(old(Shape(a)), c)
    ensures !hung ==> Items(a.slots) == After(Items(old(a.slots)), c) && a.data.sumFilesSize <= old(a.data.sumFilesSize) + MAX_LENGTH
    ensures !hung ==> a.Excess() <= old(a.Excess()) + Cost(old(Shape(a)), c)
    ensures c.FlushOne? && old(a.thread.writeSequences) != [] ==> a.thread.writeSequences == old(a.thread.writeSequences)[1..]
  {
    hide Sound, Bounded, Represents, SectorLength;
    answer, hung := Nothing, false;
    match c
    case Add(b) =>
      SectorBelowMax(|b|);
      var index;
      index, hung := a.AddBytes(b);
      answer := Index(index);
    case Set(i, b) =>
      SectorBelowMax(|b|);
      var ok;
      ok, hung := a.SetBytes(i, b);
      answer := Done(ok);
    case Get(i) =>
      if i < |a.slots| && Risky(a.data.partSize, a.slots[i]) { NothingToHide(a, i); }
      var r;
      r, hung := a.GetBytes(i);
      answer := Answer.Bytes(r);
    case FlushOne =>
      a.Flush();
  }

  // ------------------------------------------------------------------ runs

  /** Where the items are after a run. */
  function FinalShape(p: Extents, run: seq<Call>): Extents
    decreases |run|
  {
    if run == [] then p else FinalShape(Moved(p, run[0]), run[1..])
  }

  lemma {:induction false} OneMoreCall(items: seq<seq<byte>>, p: Extents, run: seq<Call>, c: Call)
    ensures Replies(items, run + [c]) == Replies(items, run) + [Reply(Final(items, run), c)]
    ensures Final(items, run + [c]) == After(Final(items, run), c) && FinalShape(p, run + [c]) == Moved(FinalShape(p, run), c)
    decreases |run|
  {
    if run == [] {
      assert [] + [c] == [c];
    } else {
      assert (run + [c])[0] == run[0] && (run + [c])[1..] == run[1..] + [c];
      OneMoreCall(After(items, run[0]), Moved(p, run[0]), run[1..], c);
    }
  }

  /**
   * Any interleaving of adds, sets, gets and flusher turns, with evictions wherever the cache makes
   * them, answers like a plain sequence of byte strings, up to a call that is not safe. All of
   * them return if the cache has room for one part beside what the run can add to the count of
   * cached bytes by mistake.
   */
  method RunCalls(a: InfinityStringArray, p0: Extents, run: seq<Call>) returns (n: nat, answers: seq<Answer>, hung: bool)
    requires a.Valid() && p0 == Shape(a) && a.data.sumFilesSize + MAX_LENGTH * |run| < TWO_63
    modifies a, a.thread, a.data, a.meta
    ensures n <= |run| && answers == Replies(Items(p0.slots), run[..n])
    ensures !hung ==> a.Valid() && Shape(a) == FinalShape(p0, run[..n]) && Items(a.slots) == Final(Items(p0.slots), run[..n])
    ensures !hung && n < |run| ==> !Safe(Shape(a), run[n], a.data.partSize)
    ensures hung ==> a.thread.Stuck() && n < |run|
    ensures old(a.Excess()) + TotalCost(p0, run, a.data.partSize) + a.data.partSize <= a.thread.maxCacheSize ==> !hung
  {
    n, answers, hung := 0, [], false;
    var p, size := p0, a.data.partSize;
    ghost var items, excess := Items(p0.slots), a.Excess();
    while n < |run| && Safe(p, run[n], size)
      invariant n <= |run| && a.Valid() && p == Shape(a) && a.data.sumFilesSize + MAX_LENGTH * (|run| - n) < TWO_63
      invariant answers == Replies(items, run[..n]) && Items(a.slots) == Final(items, run[..n]) && p == FinalShape(p0, run[..n])
      invariant a.Excess() + TotalCost(p, run[n..], size) <= excess + TotalCost(p0, run, size)
    {
      assert run[..n + 1] == run[..n] + [run[n]] && run[n..][0] == run[n] && run[n..][1..] == run[n + 1..];
      OneMoreCall(items, p0, run[..n], run[n]);
      var answer;
      answer, hung := Perform(a, run[n]);
      if hung { return; }
      answers := answers + [answer];
      p := Moved(p, run[n]);
      n := n + 1;
    }
  }

  /** Every item with a sector needs all of it. */
  predicate Full(p: Extents) {
    forall i :: 0 <= i < |p.slots| ==> p.slots[i].alloc == 0 || p.slots[i].alloc == SectorLength(|p.slots[i].item|)
  }

  /** No set of the run leaves an item in a sector that is longer than it needs. */
  predicate SectorsKept(p: Extents, run: seq<Call>)
    decreases |run|
  {
    run == [] || (Full(Moved(p, run[0])) && SectorsKept(Moved(p, run[0]), run[1..]))
  }

  /** Such a run costs nothing. */
  lemma {:induction false} KeptSectorsAreFree(p: Extents, run: seq<Call>, partSize: nat)
    requires partSize > 0 && Full(p) && SectorsKept(p, run)
    ensures TotalCost(p, run, partSize) == 0
    decreases |run|
  {
    if run != [] { KeptSectorsAreFree(Moved(p, run[0]), run[1..], partSize); }
  }

  /** A run on a new array whose cache has room for a part: with all sectors kept, every safe call of it returns. */
  method RunFromNew(maxCacheSize: int, partSize: nat, run: seq<Call>) returns (n: nat, answers: seq<Answer>, hung: bool)
    requires RECORD <= partSize <= maxCacheSize && MAX_LENGTH * |run| < TWO_63 && SectorsKept(Extents([], 0), run)
    ensures !hung && n <= |run| && answers == Replies([], run[..n])
    ensures n < |run| ==> !Safe(FinalShape(Extents([], 0), run[..n]), run[n], partSize)
  {
    var a := new InfinityStringArray(maxCacheSize, partSize);
    KeptSectorsAreFree(Extents([], 0), run, partSize);
    assert Items([]) == [];
    n, answers, hung := RunCalls(a, Extents([], 0), run);
  }
}
