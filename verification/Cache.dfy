/** ActionThread of simpledb: a write-back cache of file extents with a background flusher and eviction. */
module Cache {
  import opened Bytes
  import opened Seqs

  // An entry of the cache is identified by its file and offset. A file is the bytes written to it so far
  // and reads as zeros beyond them.

  /** One part file of a named InfinityFile. */
  datatype File = File(name: nat, part: nat)

  datatype Key = Key(file: File, offset: nat)

  datatype CacheData = CacheData(isUpdated: bool, data: seq<byte>)

  datatype State = State(cache: map<Key, CacheData>, writeSequences: seq<Key>, cachePriority: seq<Key>,
                         cacheSize: int, disk: map<File, seq<byte>>)

  // ------------------------------------------------------------------ files

  function At(file: seq<byte>, i: nat): byte {
    if i < |file| then file[i] else 0
  }

  /** `file` after `data` was written at `offset`. */
  function Written(file: seq<byte>, offset: nat, data: seq<byte>): (r: seq<byte>)
    ensures forall i: nat :: At(r, i) == if offset <= i < offset + |data| then data[i - offset] else At(file, i)
  {
    var size := if offset + |data| > |file| then offset + |data| else |file|;
    seq(size, i requires 0 <= i < size => if offset <= i < offset + |data| then data[i - offset] else At(file, i))
  }

  /** The n bytes of `file` from `offset` on. */
  function Slice(file: seq<byte>, offset: nat, n: nat): (r: seq<byte>)
    ensures |r| == n && forall i :: 0 <= i < n ==> r[i] == At(file, offset + i)
  {
    seq<byte>(n, i requires 0 <= i < n => At(file, offset + i))
  }

  function FileOf(disk: map<File, seq<byte>>, f: File): seq<byte> {
    if f in disk then disk[f] else []
  }

  ghost predicate OnDisk(s: State, k: Key, b: seq<byte>) {
    forall i :: 0 <= i < |b| ==> At(FileOf(s.disk, k.file), k.offset + i) == b[i]
  }

  /** What a client that goes through the cache finds at k starts with b. */
  ghost predicate Holds(s: State, k: Key, b: seq<byte>) {
    if k in s.cache then |b| <= |s.cache[k].data| && s.cache[k].data[..|b|] == b else OnDisk(s, k, b)
  }

  // ------------------------------------------------------------------ the invariant

  /** Extents that never overlap: each offset has room for so many bytes. */
  ghost predicate Disjoint(room: map<Key, nat>) {
    forall j, k {:trigger RoomsApart(room, j, k)} :: j in room && k in room && j != k ==> RoomsApart(room, j, k)
  }

  ghost predicate RoomsApart(room: map<Key, nat>, j: Key, k: Key)
    requires j in room && k in room
  {
    j.file == k.file ==> j.offset + room[j] <= k.offset || k.offset + room[k] <= j.offset
  }

  ghost predicate EntryOk(s: State, room: map<Key, nat>, k: Key)
    requires k in s.cache
  {
    && k in room && |s.cache[k].data| <= room[k]
    && (k in s.writeSequences || OnDisk(s, k, s.cache[k].data))
  }

  /** Entries keep to their room, and an entry that is not waiting to be written agrees with the disk. */
  ghost predicate Sound(s: State, room: map<Key, nat>) {
    && Disjoint(room) && NoDup(s.writeSequences) && NoDup(s.cachePriority)
    && (forall k {:trigger EntryOk(s, room, k)} :: k in s.cache ==> EntryOk(s, room, k))
    && (forall k :: k in s.writeSequences ==> k in s.cache && s.cache[k].isUpdated)
    && (forall k :: k in s.cachePriority ==> k in s.cache)
  }

  /** Nothing that was held at other keys than `except` is lost. */
  ghost predicate Keeps(s: State, t: State, room: map<Key, nat>, except: set<Key>) {
    forall k, b {:trigger Holds(t, k, b)} :: k in room && k !in except && |b| <= room[k] && Holds(s, k, b) ==> Holds(t, k, b)
  }

  lemma {:induction false} KeepsTwice(s: State, t: State, u: State, room: map<Key, nat>, except: set<Key>)
    requires Keeps(s, t, room, except) && Keeps(t, u, room, except)
    ensures Keeps(s, u, room, except)
  {
    forall k, b | k in room && k !in except && |b| <= room[k] && Holds(s, k, b) ensures Holds(u, k, b) {
      assert Holds(t, k, b);
    }
  }

  /** Writing within the room of k does not disturb what other keys have on disk. */
  lemma {:induction false} OthersOnDisk(room: map<Key, nat>, k: Key, data: seq<byte>, j: Key, b: seq<byte>, s: State, t: State)
    requires Disjoint(room) && k in room && j in room && j != k && |data| <= room[k] && |b| <= room[j]
    requires t.disk == s.disk[k.file := Written(FileOf(s.disk, k.file), k.offset, data)]
    ensures OnDisk(s, j, b) <==> OnDisk(t, j, b)
  {
    assert RoomsApart(room, j, k);
  }

  // ------------------------------------------------------------------ flushing and evicting

  /** The entry of k has been written and, unless it stays as a clean one, dropped. */
  ghost predicate IsFlushed(s: State, t: State, k: Key, dropped: bool) {
    && k in s.cache
    && t.disk == s.disk[k.file := Written(FileOf(s.disk, k.file), k.offset, s.cache[k].data)]
    && t.cache.Keys == s.cache.Keys - (if dropped then {k} else {})
    && (forall j :: j in t.cache ==> t.cache[j].data == s.cache[j].data && (j != k ==> t.cache[j] == s.cache[j]))
    && (forall j :: j in t.writeSequences <==> j in s.writeSequences && j != k) && NoDup(t.writeSequences)
  }

  /** The entry of k stays in the cache, marked as written. */
  ghost predicate IsMarkedClean(s: State, t: State, k: Key) {
    k in s.cache && t.cache == s.cache[k := s.cache[k].(isUpdated := false)]
  }

  lemma {:induction false} FlushKeeps(s: State, t: State, room: map<Key, nat>, k: Key, dropped: bool)
    requires Sound(s, room) && IsFlushed(s, t, k, dropped) && NoDup(t.cachePriority)
    requires forall j :: j in t.cachePriority ==> j in t.cache
    ensures Sound(t, room) && Keeps(s, t, room, {})
  {
    var data := s.cache[k].data;
    assert EntryOk(s, room, k);
    assert OnDisk(t, k, data);
    forall j | j in t.cache ensures EntryOk(t, room, j) {
      assert EntryOk(s, room, j);
      if j != k { OthersOnDisk(room, k, data, j, s.cache[j].data, s, t); }
    }
    forall j, b | j in room && |b| <= room[j] && Holds(s, j, b) ensures Holds(t, j, b) {
      if j == k {
        if dropped { assert data[..|b|] == b; assert OnDisk(t, k, b); }
      } else {
        OthersOnDisk(room, k, data, j, b, s, t);
      }
    }
  }

  // ------------------------------------------------------------------ sizes

  /** The bytes in the entries of q. */
  ghost function Total(cache: map<Key, CacheData>, q: seq<Key>): nat
    requires forall k :: k in q ==> k in cache
  {
    if q == [] then 0 else |cache[q[0]].data| + Total(cache, q[1..])
  }

  lemma {:induction false} TotalWithout(cache: map<Key, CacheData>, q: seq<Key>, i: nat)
    requires i < |q| && forall k :: k in q ==> k in cache
    ensures (forall k :: k in Cut(q, i, 1) ==> k in cache)
    ensures Total(cache, q) == Total(cache, Cut(q, i, 1)) + |cache[q[i]].data|
    decreases i
  {
    if i == 0 {
      assert Cut(q, 0, 1) == q[1..];
    } else {
      TotalWithout(cache, q[1..], i - 1);
      assert Cut(q, i, 1)[1..] == Cut(q[1..], i - 1, 1);
    }
  }

  lemma {:induction false} TotalSnoc(cache: map<Key, CacheData>, q: seq<Key>, k: Key)
    requires k in cache && forall j :: j in q ==> j in cache
    ensures Total(cache, q + [k]) == Total(cache, q) + |cache[k].data|
    decreases |q|
  {
    if q != [] {
      assert (q + [k])[1..] == q[1..] + [k];
      TotalSnoc(cache, q[1..], k);
    }
  }

  /** Other caches with entries of the same lengths. */
  lemma {:induction false} TotalSame(a: map<Key, CacheData>, b: map<Key, CacheData>, q: seq<Key>)
    requires forall k :: k in q ==> k in a && k in b && |a[k].data| == |b[k].data|
    ensures Total(a, q) == Total(b, q)
    decreases |q|
  {
    if q != [] { TotalSame(a, b, q[1..]); }
  }

  /** By how much `cacheSize` misses the true size of the entries that can be evicted. */
  ghost function Drift(s: State): int
    requires forall k :: k in s.cachePriority ==> k in s.cache
  {
    s.cacheSize - Total(s.cache, s.cachePriority)
  }

  lemma {:induction false} PolledApart(q: seq<Key>, i: nat)
    requires NoDup(q) && i < |q|
    ensures NoDup(Cut(q, i, 1)) && q[i] !in Cut(q, i, 1) && forall k :: k in Cut(q, i, 1) ==> k in q
  {
    var r := Cut(q, i, 1);
    forall x | 0 <= x < |r| ensures r[x] != q[i] && r[x] in q {
      assert r[x] == q[if x < i then x else x + 1];
    }
    forall x, y | 0 <= x < y < |r| ensures r[x] != r[y] {
      assert r[x] == q[if x < i then x else x + 1] && r[y] == q[if y < i then y else y + 1];
    }
  }

  lemma {:induction false} PolledSizes(s: State, i: nat)
    requires i < |s.cachePriority| && forall k :: k in s.cachePriority ==> k in s.cache
    ensures forall k :: k in Cut(s.cachePriority, i, 1) ==> k in s.cache
    ensures Total(s.cache, s.cachePriority) == Total(s.cache, Cut(s.cachePriority, i, 1)) + |s.cache[s.cachePriority[i]].data|
  {
    TotalWithout(s.cache, s.cachePriority, i);
  }

  /** A clean entry may leave the queue. */
  lemma {:induction false} CleanKeeps(s: State, t: State, room: map<Key, nat>)
    requires Sound(s, room) && t.cache == s.cache && t.disk == s.disk && t.writeSequences == s.writeSequences
    requires NoDup(t.cachePriority) && forall k :: k in t.cachePriority ==> k in s.cache
    ensures Sound(t, room) && Keeps(s, t, room, {})
  {
    forall k | k in t.cache ensures EntryOk(t, room, k) { assert EntryOk(s, room, k); }
    forall k, b | k in room && |b| <= room[k] && Holds(s, k, b) ensures Holds(t, k, b) {}
  }

  lemma {:induction false} EvictKeeps(s: State, t: State, room: map<Key, nat>, i: nat, dropped: bool)
    requires Sound(s, room) && i < |s.cachePriority| && t.cachePriority == Cut(s.cachePriority, i, 1)
    requires var k := s.cachePriority[i];
      && t.cacheSize == s.cacheSize - |s.cache[k].data|
      && (if s.cache[k].isUpdated then IsFlushed(s, t, k, dropped)
          else t.cache == s.cache && t.disk == s.disk && t.writeSequences == s.writeSequences)
    ensures Sound(t, room) && Keeps(s, t, room, {}) && Drift(t) == Drift(s)
    ensures forall j :: j in t.cachePriority ==> j in s.cachePriority
  {
    var k := s.cachePriority[i];
    PolledSizes(s, i);
    PolledApart(s.cachePriority, i);
    if s.cache[k].isUpdated {
      FlushKeeps(s, t, room, k, dropped);
      TotalSame(s.cache, t.cache, t.cachePriority);
    } else {
      CleanKeeps(s, t, room);
    }
  }

  function Max(a: int, b: int): int {
    if a >= b then a else b
  }

  /** Whether addToCache never returns, from the drift at the call and the length of the new entry. */
  ghost predicate Hangs(drift: int, n: nat, max: int, hung: bool) {
    && (hung ==> drift != 0 && drift + n > max)
    && (drift > 0 && drift + n > max ==> hung)
  }

  /** Whether k can be accessed without an eviction. */
  ghost predicate Easy(s: State, k: Key, n: nat, max: int) {
    k in s.cache || s.cacheSize == 0 || s.cacheSize + n <= max
  }

  /** The effect of such a write on the cache: only the entry of k is another one, and it waits to be written. */
  ghost predicate Direct(s: State, t: State, k: Key, data: seq<byte>) {
    && t.cache == s.cache[k := CacheData(true, data)]
    && t.cachePriority == (if k in s.cache then s.cachePriority else s.cachePriority + [k])
    && t.cacheSize == s.cacheSize + (if k in s.cache then 0 else |data|)
  }

  /** What a cached entry makes of a read of n bytes. */
  function Padded(data: seq<byte>, n: nat): seq<byte> {
    if |data| >= n then data[..n] else data + seq<byte>(n - |data|, i => 0)
  }

  /** A clean entry that agrees with the disk has been added. */
  lemma {:induction false} ReadEntry(s: State, mid: State, t: State, room: map<Key, nat>, k: Key, data: seq<byte>)
    requires Sound(mid, room) && Keeps(s, mid, room, {}) && k !in s.cache && k !in mid.cache && k in room && |data| <= room[k]
    requires t == mid.(cacheSize := t.cacheSize, cachePriority := mid.cachePriority + [k], cache := mid.cache[k := CacheData(false, data)])
    requires data == Slice(FileOf(s.disk, k.file), k.offset, |data|)
    ensures Sound(t, room) && Keeps(s, t, room, {k})
    ensures forall b :: Holds(s, k, b) ==> (Holds(t, k, b) <==> |b| <= |data|)
    ensures forall b :: |b| == |data| && Holds(s, k, b) ==> data == b
    ensures Total(t.cache, t.cachePriority) == Total(mid.cache, mid.cachePriority) + |data|
  {
    assert Holds(s, k, data);
    assert OnDisk(mid, k, data) by { assert Holds(mid, k, data); }
    NoDupAppend(mid.cachePriority, [k]);
    forall j | j in t.cache ensures EntryOk(t, room, j) {
      if j != k { assert EntryOk(mid, room, j); }
    }
    forall j, b | j in room && j != k && |b| <= room[j] && Holds(s, j, b) ensures Holds(t, j, b) { assert Holds(mid, j, b); }
    forall b | Holds(s, k, b) ensures Holds(t, k, b) <==> |b| <= |data| {
      assert forall i :: 0 <= i < |b| && i < |data| ==> b[i] == data[i];
    }
    TotalSnoc(t.cache, mid.cachePriority, k);
    TotalSame(mid.cache, t.cache, mid.cachePriority);
  }

  /** An entry that waits to be written has been added or replaced. */
  lemma {:induction false} DirtyEntry(s: State, mid: State, t: State, room: map<Key, nat>, k: Key, data: seq<byte>)
    requires Sound(mid, room) && Keeps(s, mid, room, {}) && k in room && |data| <= room[k]
    requires t.disk == mid.disk && t.cache == mid.cache[k := CacheData(true, data)] && NoDup(t.writeSequences)
    requires forall j :: j in t.writeSequences <==> j == k || j in mid.writeSequences
    requires NoDup(t.cachePriority) && forall j :: j in t.cachePriority ==> j == k || j in mid.cachePriority
    ensures Sound(t, room) && Keeps(s, t, room, {k}) && Holds(t, k, data)
  {
    forall j | j in t.cache ensures EntryOk(t, room, j) {
      if j != k { assert EntryOk(mid, room, j); }
    }
    forall j, b | j in room && j != k && |b| <= room[j] && Holds(s, j, b) ensures Holds(t, j, b) { assert Holds(mid, j, b); }
    assert data[..|data|] == data;
  }

  /** The entry of k has a new length. */
  lemma {:induction false} TotalChange(a: map<Key, CacheData>, b: map<Key, CacheData>, q: seq<Key>, k: Key)
    requires (forall j :: j in q ==> j in a) && k in a && k in b && NoDup(q)
    requires forall j :: j in a && j != k ==> j in b && |b[j].data| == |a[j].data|
    ensures Total(b, q) == Total(a, q) + if k in q then |b[k].data| - |a[k].data| else 0
    decreases |q|
  {
    if q != [] {
      assert q == [q[0]] + q[1..];
      NotInTail(q, 0, 1);
      TotalChange(a, b, q[1..], k);
    }
  }

  // ------------------------------------------------------------------ the cache

  class ActionThread {
    var cache: map<Key, CacheData>
    var writeSequences: seq<Key>
    var cachePriority: seq<Key>
    var cacheSize: int
    var disk: map<File, seq<byte>>
    const maxCacheSize: int

    ghost function Now(): State
      reads this
    {
      State(cache, writeSequences, cachePriority, cacheSize, disk)
    }

    /** The loop of addToCache finds nothing to poll, although something is counted: it never ends. */
    ghost predicate Stuck()
      reads this
    {
      cachePriority == [] && cacheSize != 0
    }

    constructor (maxCacheSize: int)
      ensures this.maxCacheSize == maxCacheSize && Now() == State(map[], [], [], 0, map[])
    {
      this.maxCacheSize := maxCacheSize;
      cache, writeSequences, cachePriority, cacheSize, disk := map[], [], [], 0, map[];
    }

    /** A cache over files that are there already. */
    constructor Open(maxCacheSize: int, disk: map<File, seq<byte>>)
      ensures this.maxCacheSize == maxCacheSize && Now() == State(map[], [], [], 0, disk)
    {
      this.maxCacheSize := maxCacheSize;
      cache, writeSequences, cachePriority, cacheSize, this.disk := map[], [], [], 0, disk;
    }

    /** doAction(ACTION_WRITE). */
    method DoWrite(k: Key, data: seq<byte>)
      modifies `disk
      ensures disk == old(disk)[k.file := Written(FileOf(old(disk), k.file), k.offset, data)]
    {
      disk := disk[k.file := Written(FileOf(disk, k.file), k.offset, data)];
    }

    /** writeSequences.remove. */
    method RemoveFromSequence(k: Key)
      requires NoDup(writeSequences)
      modifies `writeSequences
      ensures NoDup(writeSequences) && forall j :: j in writeSequences <==> j in old(writeSequences) && j != k
    {
      var i := 0;
      while i < |writeSequences|
        invariant i <= |writeSequences| && k !in writeSequences[..i] && writeSequences == old(writeSequences)
      {
        if writeSequences[i] == k {
          var before := writeSequences;
          writeSequences := before[..i] + before[i + 1..];
          NotInTail(before, i, i + 1);
          assert forall j :: j in before <==> j in before[..i] || j == k || j in before[i + 1..];
          return;
        }
        i := i + 1;
      }
      assert writeSequences[..i] == writeSequences;
    }

    /** One iteration of run(): the oldest pending write reaches the disk. */
    method Flush(ghost room: map<Key, nat>)
      requires Sound(Now(), room)
      modifies this
      ensures Sound(Now(), room) && Keeps(old(Now()), Now(), room, {})
      ensures cacheSize == old(cacheSize) && cachePriority == old(cachePriority) && Drift(Now()) == old(Drift(Now()))
      ensures old(writeSequences) == [] ==> Now() == old(Now())
      ensures old(writeSequences) != [] ==> writeSequences == old(writeSequences)[1..] && IsMarkedClean(old(Now()), Now(), old(writeSequences)[0])
    {
      if writeSequences == [] { return; }
      ghost var s := Now();
      var k := writeSequences[0];
      DoWrite(k, cache[k].data);
      cache := cache[k := cache[k].(isUpdated := false)];
      writeSequences := writeSequences[1..];
      FlushKeeps(s, Now(), room, k, false);
      TotalSame(s.cache, cache, cachePriority);
    }

    // ---------------------------------------------------------------- eviction

    /** One turn of the loop in addToCache that finds an entry, of arbitrary age, to poll. */
    method Evict(file: File, ghost room: map<Key, nat>)
      requires Sound(Now(), room) && cachePriority != []
      modifies this
      ensures Sound(Now(), room) && Keeps(old(Now()), Now(), room, {})
      ensures cache.Keys <= old(cache.Keys) && forall k :: k in cache ==> cache[k] == old(cache)[k]
      ensures |cachePriority| == |old(cachePriority)| - 1 && Drift(Now()) == old(Drift(Now()))
      ensures forall k :: k in cachePriority ==> k in old(cachePriority)
    {
      ghost var s := Now();
      var i :| 0 <= i < |cachePriority|;
      var k := cachePriority[i];
      var w := cache[k];
      cachePriority := cachePriority[..i] + cachePriority[i + 1..];
      if w.isUpdated {
        DoWrite(k, w.data);
        if k.file == file { cache := cache - {k}; }
        RemoveFromSequence(k);
      }
      cacheSize := cacheSize - |w.data|;
      EvictKeeps(s, Now(), room, i, k.file == file);
    }

    /** The loop of addToCache. It spins for ever once nothing is left to poll: `hung`. */
    method MakeRoom(file: File, n: nat, ghost room: map<Key, nat>) returns (hung: bool)
      requires Sound(Now(), room)
      modifies this
      ensures Sound(Now(), room) && Keeps(old(Now()), Now(), room, {})
      ensures cache.Keys <= old(cache.Keys) && forall k :: k in cache ==> cache[k] == old(cache)[k]
      ensures Drift(Now()) == old(Drift(Now()))
      ensures forall k :: k in cachePriority ==> k in old(cachePriority)
      ensures hung ==> Stuck() && cacheSize + n > maxCacheSize && Drift(Now()) != 0 && Drift(Now()) + n > maxCacheSize
      ensures Drift(Now()) > 0 && Drift(Now()) + n > maxCacheSize ==> hung
      ensures !hung ==> cacheSize == 0 || cacheSize + n <= maxCacheSize
      ensures old(cacheSize == 0 || cacheSize + n <= maxCacheSize) ==> !hung && Now() == old(Now())
    {
      ghost var s := Now();
      while cacheSize != 0 && cacheSize + n > maxCacheSize
        invariant Sound(Now(), room) && Keeps(s, Now(), room, {}) && Drift(Now()) == Drift(s)
        invariant s.cacheSize == 0 || s.cacheSize + n <= maxCacheSize ==> Now() == s
        invariant cache.Keys <= s.cache.Keys && forall k :: k in cache ==> cache[k] == s.cache[k]
        invariant forall k :: k in cachePriority ==> k in s.cachePriority
        decreases |cachePriority|
      {
        if cachePriority == [] { return true; }
        ghost var t := Now();
        Evict(file, room);
        KeepsTwice(s, t, Now(), room, {});
      }
      hung := false;
    }

    /** addToCache for a key that is not cached. `mid` is the state when there is room for it. */
    method AddToCache(k: Key, e: CacheData, ghost room: map<Key, nat>) returns (hung: bool, ghost mid: State)
      requires Sound(Now(), room) && k !in cache
      modifies this
      ensures Sound(mid, room) && Keeps(old(Now()), mid, room, {}) && mid.cache.Keys <= old(cache.Keys)
      ensures Hangs(old(Drift(Now())), |e.data|, maxCacheSize, hung) && Drift(mid) == old(Drift(Now()))
      ensures forall j :: j in mid.cache ==> mid.cache[j] == old(cache)[j]
      ensures old(cacheSize == 0 || cacheSize + |e.data| <= maxCacheSize) ==> !hung && mid == old(Now())
      ensures hung ==> Now() == mid && Stuck() && cacheSize + |e.data| > maxCacheSize
      ensures !hung ==> mid.cacheSize + |e.data| <= Max(maxCacheSize, |e.data|)
      ensures !hung ==> Now() == mid.(cacheSize := mid.cacheSize + |e.data|, cachePriority := mid.cachePriority + [k],
                                      cache := mid.cache[k := e])
    {
      hung := MakeRoom(k.file, |e.data|, room);
      mid := Now();
      if !hung {
        cacheSize := cacheSize + |e.data|;
        cachePriority := cachePriority + [k];
        cache := cache[k := e];
      }
    }

    // ---------------------------------------------------------------- read and write

    /** read: n bytes of a file; a cached entry that is shorter is followed by zeros. */
    method Read(k: Key, n: nat, ghost room: map<Key, nat>) returns (r: seq<byte>, hung: bool)
      requires Sound(Now(), room) && k in room && n <= room[k]
      modifies this
      ensures Sound(Now(), room) && Keeps(old(Now()), Now(), room, {k})
      ensures !hung ==> |r| == n && forall b :: |b| == n && Holds(old(Now()), k, b) ==> r == b
      ensures !hung ==> forall b :: Holds(old(Now()), k, b) ==> (Holds(Now(), k, b) <==> |b| <= n || k in old(cache))
      ensures hung ==> Stuck()
      ensures hung ==> forall b :: |b| <= room[k] && Holds(old(Now()), k, b) ==> Holds(Now(), k, b)
      ensures Drift(Now()) == old(Drift(Now()))
      ensures if k in old(cache) then !hung && Now() == old(Now()) else Hangs(old(Drift(Now())), n, maxCacheSize, hung)
      ensures !hung ==> k in cache && |cache[k].data| == (if k in old(cache) then |old(cache)[k].data| else n)
      ensures forall j :: j in cache && j != k ==> j in old(cache) && cache[j] == old(cache)[j]
      ensures !hung && k !in old(cache) ==> cacheSize <= Max(maxCacheSize, n)
      ensures k in old(cache) ==> r == Padded(old(cache)[k].data, n)
      ensures Easy(old(Now()), k, n, maxCacheSize) ==> !hung && forall j :: j in old(cache) ==> j in cache && cache[j] == old(cache)[j]
    {
      if k in cache {
        var data := cache[k].data;
        if |data| >= n { return data[..n], false; }
        return data + seq(n - |data|, i => 0), false;
      }
      ghost var s := Now();
      r := Slice(FileOf(disk, k.file), k.offset, n);
      ghost var mid;
      hung, mid := AddToCache(k, CacheData(false, r), room);
      if !hung { ReadEntry(s, mid, Now(), room, k, r); }
    }

    /** write: the bytes go into the cache and are queued for the flusher; no bytes are no write. */
    method Write(k: Key, data: seq<byte>, ghost room: map<Key, nat>) returns (hung: bool)
      requires Sound(Now(), room) && k in room && |data| <= room[k]
      modifies this
      ensures data == [] ==> !hung && Now() == old(Now())
      ensures Keeps(old(Now()), Now(), room, {k})
      ensures Sound(Now(), room)
      ensures hung ==> Stuck()
      ensures !hung && data != [] ==> k in cache && cache[k].data == data && Holds(Now(), k, data)
      ensures data != [] && !hung ==> Drift(Now()) <= old(Drift(Now())) + room[k] - |data|
      ensures data != [] && Easy(old(Now()), k, |data|, maxCacheSize) ==> !hung && Direct(old(Now()), Now(), k, data)
      ensures data != [] && k in old(cache) ==>
        !hung && cacheSize == old(cacheSize) && cachePriority == old(cachePriority) &&
        Drift(Now()) == old(Drift(Now())) + if k in cachePriority then |old(cache)[k].data| - |data| else 0
      ensures data != [] && k !in old(cache) ==>
        Drift(Now()) == old(Drift(Now())) && Hangs(old(Drift(Now())), |data|, maxCacheSize, hung) &&
        (!hung ==> cacheSize <= Max(maxCacheSize, |data|) && k in cachePriority)
      ensures forall j :: j in cache && j != k ==> j in old(cache) && cache[j] == old(cache)[j]
    {
      hung := false;
      if data == [] { return; }
      ghost var s := Now();
      if k in cache {
        assert EntryOk(s, room, k);
        cache := cache[k := CacheData(true, data)];
        RemoveFromSequence(k);
        NoDupAppend(writeSequences, [k]);
        writeSequences := writeSequences + [k];
        DirtyEntry(s, s, Now(), room, k, data);
        TotalChange(s.cache, cache, cachePriority, k);
      } else {
        ghost var mid;
        hung, mid := AddToCache(k, CacheData(true, data), room);
        if hung { return; }
        writeSequences := writeSequences + [k];
        NoDupAppend(mid.cachePriority, [k]);
        DirtyEntry(s, mid, Now(), room, k, data);
        TotalSnoc(cache, mid.cachePriority, k);
        TotalSame(mid.cache, cache, mid.cachePriority);
      }
    }
  }
}
