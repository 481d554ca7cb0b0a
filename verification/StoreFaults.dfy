/** Concrete runs in which an InfinityStringArray does not do what a sequence of byte strings would. */
module StoreFaults {
  import opened Bytes
  import opened Options
  import opened Seqs
  import opened Cache
  import opened PartFile
  import opened Sectors
  import opened StringArray

  lemma {:induction false} SmallSectors()
    ensures SectorLength(0) == 1 && SectorLength(1) == 1 && SectorLength(5) == 8 && SectorLength(10) == 16 && SectorLength(16) == 16
    ensures SectorLength(64) == 64 && SectorLength(100) == 128
  {
    assert Doubled(8, 16) == 16 && Doubled(8, 10) == 16 && Doubled(4, 5) == 8;
    assert Doubled(2, 16) == Doubled(4, 16) && Doubled(2, 10) == Doubled(4, 10) && Doubled(2, 5) == Doubled(4, 5);
    assert Doubled(16, 64) == Doubled(32, 64) == 64 && Doubled(4, 64) == Doubled(8, 64) == Doubled(16, 64);
    assert Doubled(2, 64) == Doubled(4, 64);
    assert Doubled(64, 100) == 128 && Doubled(16, 100) == Doubled(32, 100) == Doubled(64, 100);
    assert Doubled(4, 100) == Doubled(8, 100) == Doubled(16, 100) && Doubled(2, 100) == Doubled(4, 100);
  }

  const DATA: Key := Key(File(0, 0), 0)
  const META: Key := Key(File(1, 0), 0)

  lemma {:induction false} FirstOffsets(p: nat, name: nat)
    requires p > 0
    ensures KeyAt(name, p, 0) == Key(File(name, 0), 0) && Fit(p, 0) == p
    ensures KeyAt(name, p, p) == Key(File(name, 1), 0) && Fit(p, p) == p
  {
    DivisionIsUnique(0, p, 0, 0);
    DivisionIsUnique(p, p, 1, 0);
  }

  /** One item at 0 that fills a part, and whose entry in the cache has n bytes; a whole part is counted. */
  ghost predicate OneItem(a: InfinityStringArray, length: nat, n: nat)
    reads a, a.thread, a.data, a.meta
  {
    && a.data.partSize == a.meta.partSize == a.data.sumFilesSize >= RECORD && a.data.name == 0 && a.meta.name == 1
    && |a.slots| == 1 && a.slots[0].start == 0 && a.slots[0].alloc == a.data.partSize && |a.slots[0].item| == length
    && Counts(a.thread.Now(), a.data.partSize, n) && a.data.partSize <= MAX_LENGTH
  }

  ghost predicate Counts(s: State, p: nat, n: nat) {
    && s.cache.Keys == {DATA, META} && |s.cache[DATA].data| == n && |s.cache[META].data| == RECORD
    && s.cachePriority == [DATA, META] && s.cacheSize == p + RECORD
  }

  lemma {:induction false} DriftOf(s: State, p: nat, n: nat)
    requires Counts(s, p, n)
    ensures Drift(s) == p - n
  {
    var q := [DATA, META];
    assert q[1..] == [META] && [META][1..] == [];
    assert Total(s.cache, [META]) == RECORD + Total(s.cache, []);
  }

  lemma CountsAfterAdd(s: State, t: State, sector: seq<byte>, record: seq<byte>)
    requires s.cache == map[] && s.cachePriority == [] && s.cacheSize == 0 && |record| == RECORD
    requires t.cache == s.cache[DATA := CacheData(true, sector)][META := CacheData(true, record)]
    requires t.cachePriority == s.cachePriority + [DATA] + [META] && t.cacheSize == s.cacheSize + |sector| + RECORD
    ensures Counts(t, |sector|, |sector|)
  {}

  lemma CountsAfterSet(s: State, t: State, p: nat, m: nat, sector: seq<byte>, record: seq<byte>)
    requires Counts(s, p, m) && |record| == RECORD
    requires t.cache == s.cache[META := CacheData(true, record)][DATA := CacheData(true, sector)]
    requires t.cachePriority == s.cachePriority && t.cacheSize == s.cacheSize
    ensures Counts(t, p, |sector|)
  {}

  ghost predicate Empty(a: InfinityStringArray)
    reads a, a.thread, a.data, a.meta
  {
    && a.slots == [] && a.data.partSize == a.meta.partSize >= RECORD && a.data.name == 0 && a.meta.name == 1 && a.data.sumFilesSize == 0
    && a.thread.Now() == State(map[], [], [], 0, map[])
  }

  lemma {:induction false} EasyFirst(a: InfinityStringArray)
    requires Empty(a) && a.data.partSize + RECORD <= a.thread.maxCacheSize
    ensures a.EasyToAdd(a.data.partSize)
  {
    FirstOffsets(a.data.partSize, 0);
    FirstOffsets(a.data.partSize, 1);
  }

  method AddFirst(a: InfinityStringArray, bytes: seq<byte>)
    requires a.Valid() && Empty(a) && a.data.partSize + RECORD <= a.thread.maxCacheSize
    requires 0 < |bytes| <= SectorLength(|bytes|) == a.data.partSize <= MAX_LENGTH
    modifies a, a.thread, a.data, a.meta
    ensures a.Valid() && OneItem(a, |bytes|, a.data.partSize)
  {
    ghost var s := a.thread.Now();
    EasyFirst(a);
    var index, hung := a.AddBytes(bytes);
    FirstOffsets(a.data.partSize, 0);
    FirstOffsets(a.data.partSize, 1);
    CountsAfterAdd(s, a.thread.Now(), Sector(bytes, SectorLength(|bytes|)), Build(MetaCell(0, |bytes|)));
  }

  lemma {:induction false} InReachNow(a: InfinityStringArray, length: nat, n: nat)
    requires OneItem(a, length, n) && SectorLength(length) <= a.data.partSize
    ensures a.InReach(0)
  {
    FirstOffsets(a.data.partSize, 0);
    FirstOffsets(a.data.partSize, 1);
  }

  /** The item is set to `bytes`; the first n bytes of its sector are written. */
  method Shorten(a: InfinityStringArray, bytes: seq<byte>, ghost length: nat, ghost n: nat, ghost m: nat)
    requires a.Valid() && OneItem(a, length, m) && SectorLength(length) == n <= a.data.partSize && |bytes| <= n && SectorLength(|bytes|) <= n
    modifies a, a.thread, a.data, a.meta
    ensures a.Valid() && OneItem(a, |bytes|, n)
  {
    ghost var s := a.thread.Now();
    InReachNow(a, length, m);
    var ok, hung := a.SetBytes(0, bytes);
    FirstOffsets(a.data.partSize, 0);
    FirstOffsets(a.data.partSize, 1);
    CountsAfterSet(s, a.thread.Now(), a.data.partSize, m, Sector(bytes, n), Build(MetaCell(0, |bytes|)));
  }

  lemma {:induction false} SureNow(a: InfinityStringArray, length: nat, n: nat, more: nat)
    requires OneItem(a, length, n) && Sound(a.thread.Now(), a.room) && n < a.data.partSize && more <= a.data.partSize
    requires a.data.partSize - n + more > a.thread.maxCacheSize
    ensures a.SureToSpin(more)
  {
    FirstOffsets(a.data.partSize, 0);
    DriftOf(a.thread.Now(), a.data.partSize, n);
  }

  /**
   * An item that fills a part gets shorter twice: its whole sector is written again, and then only
   * the sector that y needs. The count is too high by the rest then, and if that and the sector of
   * w are beyond the limit, adding w never returns.
   */
  method ShrunkTwice(maxCacheSize: int, partSize: nat, x: seq<byte>, y: seq<byte>, z: seq<byte>, w: seq<byte>) returns (hung: bool)
    requires 0 < |x| && SectorLength(|x|) == partSize <= MAX_LENGTH && RECORD <= partSize <= maxCacheSize - RECORD
    requires SectorLength(|y|) < partSize && SectorLength(|z|) <= SectorLength(|y|) && 0 < |w| && SectorLength(|w|) <= partSize
    requires maxCacheSize < partSize - SectorLength(|y|) + SectorLength(|w|)
    ensures hung
  {
    SectorIsLeast(|x|, 0);
    SectorIsLeast(|y|, 0);
    SectorIsLeast(|z|, 0);
    SectorIsLeast(|w|, 0);
    var a := new InfinityStringArray(maxCacheSize, partSize);
    AddFirst(a, x);
    Shorten(a, y, |x|, partSize, partSize);
    Shorten(a, z, |y|, SectorLength(|y|), partSize);
    SureNow(a, |z|, SectorLength(|y|), SectorLength(|w|));
    var index;
    index, hung := a.AddBytes(w);
  }

  /** With a cache of 160 bytes over parts of 128: 100 bytes, set to 10 and to 5, and 64 more. */
  method HangsOnFourthCall() returns (hung: bool)
    ensures hung
  {
    SmallSectors();
    hung := ShrunkTwice(160, 128, seq(100, i => 1), seq(10, i => 2), seq(5, i => 3), seq(64, i => 4));
  }

  // ------------------------------------------------------------------ an empty string that was added

  /** One byte and an empty string are added. */
  method AddTwo(a: InfinityStringArray, x: byte) returns (hung: bool)
    requires a.Valid() && Empty(a) && a.data.partSize <= a.thread.maxCacheSize
    modifies a, a.thread, a.data, a.meta
    ensures !hung && a.Valid() && a.slots == [Slot(0, 1, [x]), Slot(0, 0, [])] && a.data.sumFilesSize == 1 && a.Excess() <= 0
  {
    AddByte(a, x);
    var index;
    index, hung := a.AddBytes([]);
  }

  method AddByte(a: InfinityStringArray, x: byte)
    requires a.Valid() && Empty(a) && a.data.partSize <= a.thread.maxCacheSize
    modifies a, a.thread, a.data, a.meta
    ensures a.Valid() && a.slots == [Slot(0, 1, [x])] && a.data.sumFilesSize == 1 && a.Excess() <= 0 && SectorLength(0) == 1
  {
    SmallSectors();
    var index, hung := a.AddBytes([x]);
  }

  /** The empty string is set to one byte, and that overwrites item 0; the read of its data follows. */
  method SetSecond(a: InfinityStringArray, x: byte, y: byte) returns (read: ReadResult, hung: bool)
    requires a.Valid() && a.slots == [Slot(0, 1, [x]), Slot(0, 0, [])] && a.data.sumFilesSize == 1 && a.Excess() <= 0
    requires a.data.partSize <= a.thread.maxCacheSize && x != y
    modifies a, a.thread, a.data, a.meta
    ensures !hung && read == Data([y])
  {
    SmallSectors();
    assert SlotOk(a.thread.Now(), a.room, a.Files(), a.data.sumFilesSize, 0, a.slots[0]);
    var ok;
    ok, hung := a.SetBytes(1, [y]);
    read, hung := ReadFirst(a, y);
  }

  /** An empty string has no sector: setting it to one byte overwrites the item at the start of the file. */
  method OverwrittenByEmpty(maxCacheSize: int, partSize: nat, x: byte, y: byte) returns (read: ReadResult, hung: bool)
    requires RECORD <= partSize <= maxCacheSize && x != y
    ensures !hung && read == Data([y])
  {
    var a := new InfinityStringArray(maxCacheSize, partSize);
    hung := AddTwo(a, x);
    read, hung := SetSecond(a, x, y);
  }

  /** The read of the data that getting item 0 makes: its record says one byte at 0. */
  method ReadFirst(a: InfinityStringArray, y: byte) returns (read: ReadResult, hung: bool)
    requires a.FilesValid() && Sound(a.thread.Now(), a.room) && Bounded(a.room, a.data.name, a.data.partSize, a.data.sumFilesSize)
    requires a.data.sumFilesSize == 1 && RoomFor(a.room, a.data.name, a.data.partSize, 0, 1) && a.Excess() < a.thread.maxCacheSize
    requires DataOk(a.thread.Now(), a.Files(), Slot(0, 1, [y]))
    modifies a.thread, a.data`files
    ensures !hung && read == Data([y])
  {
    ghost var s := a.thread.Now();
    read, hung := a.data.Read(a.thread, 0, 1, a.room);
    assert HoldsAt(s, a.data.name, a.data.partSize, 0, [y]);
    assert HoldsAt(a.thread.Now(), a.data.name, a.data.partSize, 0, [y]);
  }

  // ------------------------------------------------------------------ an empty item at the start of a part

  function Zeros(n: nat): (z: seq<byte>)
    ensures |z| == n && forall i :: 0 <= i < n ==> z[i] == 0
  {
    seq<byte>(n, i => 0)
  }

  /** v lies over the end of the first part, eight bytes on each side; item 1 is the byte b at the start of the third part. */
  function TwoItems(p: nat, v: seq<byte>, b: byte): seq<Slot>
    requires p >= 8
  {
    [Slot(p - 8, 16, v), Slot(2 * p, 1, [b])]
  }

  function Before(p: nat, v: seq<byte>, b: byte): State
    requires p >= 8 && |v| == 16
  {
    State(map[], [], [], 0, Disk(p, v, b))
  }

  function Disk(p: nat, v: seq<byte>, b: byte): map<File, seq<byte>>
    requires p >= 8 && |v| == 16
  {
    map[File(0, 0) := Zeros(p - 8) + v[..8], File(0, 1) := v[8..] + Zeros(p - 8), File(0, 2) := [b],
        File(1, 0) := Build(MetaCell(p - 8, 16)) + Build(MetaCell(2 * p, 1))]
  }

  function Room(p: nat): map<Key, nat>
    requires p >= 8
  {
    map[Key(File(0, 0), 0) := p - 8, Key(File(0, 0), p - 8) := 8, Key(File(0, 1), 0) := 8, Key(File(0, 2), 0) := 1,
        Key(File(1, 0), 0) := RECORD, Key(File(1, 0), RECORD) := RECORD]
  }

  lemma {:induction false} Offsets(p: nat)
    requires p > 2 * RECORD
    ensures KeyAt(0, p, p - 8) == Key(File(0, 0), p - 8) && Fit(p, p - 8) == 8 && NextKey(0, p, p - 8) == Key(File(0, 1), 0)
    ensures KeyAt(0, p, 2 * p) == Key(File(0, 2), 0) && Fit(p, 2 * p) == p && ProbeKey(0, p, 2 * p) == Key(File(0, 1), 0)
    ensures Corner(p, 2 * p, 0)
    ensures KeyAt(1, p, 0) == Key(File(1, 0), 0) && Fit(p, 0) == p && KeyAt(1, p, RECORD) == Key(File(1, 0), RECORD) && Fit(p, RECORD) == p - RECORD
  {
    DivisionIsUnique(p - 8, p, 0, p - 8);
    DivisionIsUnique(2 * p, p, 2, 0);
    DivisionIsUnique(0, p, 0, 0);
    DivisionIsUnique(RECORD, p, 0, RECORD);
  }

  lemma {:induction false} Sizes(p: nat, v: seq<byte>, b: byte)
    requires p > 2 * RECORD && |v| == 16
    ensures SizeFrom(Disk(p, v, b), 0, 0, 3) == 2 * p + 1 && SizeFrom(Disk(p, v, b), 1, 0, 1) == 2 * RECORD
    ensures (2 * p + 1) / p + 1 == 3 && 2 * RECORD / p + 1 == 1
  {
    var d := Disk(p, v, b);
    assert SizeFrom(d, 0, 2, 3) == 1 && SizeFrom(d, 0, 1, 3) == p + 1;
    assert SizeFrom(d, 1, 1, 1) == 0;
    DivisionIsUnique(2 * p + 1, p, 2, 1);
    DivisionIsUnique(2 * RECORD, p, 0, 2 * RECORD);
  }

  lemma {:induction false} RoomFits(p: nat)
    requires p > 2 * RECORD
    ensures Disjoint(Room(p)) && Bounded(Room(p), 0, p, 2 * p + 1) && Bounded(Room(p), 1, p, 2 * RECORD)
  {
    var room := Room(p);
    forall q: nat | q * p < 2 * p + 1 ensures Begun(room, 0, q) {
      QuotientsGrow(q, 0, 2, 0, p);
    }
    forall q: nat | q * p < 2 * RECORD ensures Begun(room, 1, q) {
      QuotientsGrow(q, 0, 0, 2 * RECORD, p);
    }
    forall k | k in room ensures Within(room, 0, p, 2 * p + 1, k) && Within(room, 1, p, 2 * RECORD, k) {}
    forall j, k | j in room && k in room && j != k ensures RoomsApart(room, j, k) {}
  }

  lemma {:induction false} RecordsThere(p: nat, v: seq<byte>, b: byte, c: Slot, d: Slot)
    requires p > 2 * RECORD && |v| == 16 && [c, d] == TwoItems(p, v, b)
    ensures MetaOk(Before(p, v, b), Room(p), Layout(0, 1, p), 0, c.Cell()) && MetaOk(Before(p, v, b), Room(p), Layout(0, 1, p), 1, d.Cell())
  {
    var s := Before(p, v, b);
    Offsets(p);
    assert c == [c, d][0] && d == [c, d][1];
    assert OnDisk(s, Key(File(1, 0), 0), Build(MetaCell(p - 8, 16))) && OnDisk(s, Key(File(1, 0), RECORD), Build(MetaCell(2 * p, 1)));
  }

  lemma {:induction false} PlacesThere(p: nat, v: seq<byte>, b: byte, c: Slot, d: Slot)
    requires p > 2 * RECORD && |v| == 16 && 2 * p + 1 < TWO_63 && [c, d] == TwoItems(p, v, b)
    ensures Placed(Room(p), Layout(0, 1, p), 2 * p + 1, c) && Placed(Room(p), Layout(0, 1, p), 2 * p + 1, d)
    ensures c.alloc > 0 && d.alloc > 0 && SlotsApart(c, d)
  {
    assert c == [c, d][0] && d == [c, d][1];
    SmallSectors();
    Offsets(p);
  }

  lemma {:induction false} BytesThere(p: nat, v: seq<byte>, b: byte, c: Slot, d: Slot)
    requires p > 2 * RECORD && |v| == 16 && [c, d] == TwoItems(p, v, b)
    ensures DataOk(Before(p, v, b), Layout(0, 1, p), c) && DataOk(Before(p, v, b), Layout(0, 1, p), d)
  {
    var s := Before(p, v, b);
    Offsets(p);
    assert c == [c, d][0] && d == [c, d][1];
    assert OnDisk(s, Key(File(0, 0), p - 8), v[..8]) && OnDisk(s, Key(File(0, 1), 0), v[8..]);
    assert OnDisk(s, Key(File(0, 2), 0), [b]);
  }

  lemma {:induction false} TwoSlots(s: State, room: map<Key, nat>, f: Layout, sum: nat, c: Slot, d: Slot)
    requires f.partSize >= RECORD && f.data != f.meta && c.alloc > 0 && d.alloc > 0 && SlotsApart(c, d)
    requires MetaOk(s, room, f, 0, c.Cell()) && DataOk(s, f, c) && Placed(room, f, sum, c)
    requires MetaOk(s, room, f, 1, d.Cell()) && DataOk(s, f, d) && Placed(room, f, sum, d)
    ensures Represents(s, room, f, sum, [c, d])
  {
    assert SlotOk(s, room, f, sum, 0, c) && SlotOk(s, room, f, sum, 1, d);
  }

  lemma {:induction false} ItemsThere(p: nat, v: seq<byte>, b: byte, c: Slot, d: Slot)
    requires p > 2 * RECORD && |v| == 16 && 2 * p + 1 < TWO_63 && [c, d] == TwoItems(p, v, b)
    ensures Represents(Before(p, v, b), Room(p), Layout(0, 1, p), 2 * p + 1, [c, d])
  {
    PlacesThere(p, v, b, c, d);
    RecordsThere(p, v, b, c, d);
    BytesThere(p, v, b, c, d);
    TwoSlots(Before(p, v, b), Room(p), Layout(0, 1, p), 2 * p + 1, c, d);
  }

  lemma {:induction false} TwoItemsThere(p: nat, v: seq<byte>, b: byte)
    requires p > 2 * RECORD && |v| == 16 && 2 * p + 1 < TWO_63
    ensures Represents(Before(p, v, b), Room(p), Layout(0, 1, p), 2 * p + 1, TwoItems(p, v, b)) && |TwoItems(p, v, b)| == 2
  {
    var slots := TwoItems(p, v, b);
    assert slots == [slots[0], slots[1]];
    ItemsThere(p, v, b, slots[0], slots[1]);
  }

  /** Item 1 is set to the empty string, and got; what is at the start of the second part is hidden then. */
  method SetAndGet(a: InfinityStringArray, p: nat, v: seq<byte>, b: byte) returns (read: Option<seq<byte>>, hung: bool)
    requires a.Valid() && a.data.partSize == p > 2 * RECORD && a.slots == TwoItems(p, v, b) && |v| == 16
    requires a.data.name == 0 && a.data.sumFilesSize == 2 * p + 1 && 2 * p + 2 < TWO_63
    requires a.thread.cache == map[] && a.Excess() == 0 && p <= a.thread.maxCacheSize
    modifies a, a.thread, a.data, a.meta
    ensures !hung && read == Some([]) && Sound(a.thread.Now(), a.room)
    ensures var k := Key(File(0, 1), 0); k in a.room && a.room[k] == 8 && k in a.thread.cache && a.thread.cache[k].data == []
  {
    SmallSectors();
    Offsets(p);
    var ok;
    ok, hung := a.SetBytes(1, []);
    assert SlotOk(a.thread.Now(), a.room, a.Files(), a.data.sumFilesSize, 0, a.slots[0]);
    read, hung := a.GetBytes(1);
  }

  /**
   * A program starts on files with these two items, sets item 1 to the empty string, and gets it.
   * The second half of item 0 then reads as zeros.
   */
  method HiddenByEmpty(maxCacheSize: int, p: nat, v: seq<byte>, b: byte) returns (read: Option<seq<byte>>, tail: seq<byte>, hung: bool)
    requires 2 * RECORD < p <= maxCacheSize && |v| == 16 && 2 * p + 2 < TWO_63
    ensures !hung && read == Some([]) && tail == Zeros(8)
  {
    Sizes(p, v, b);
    RoomFits(p);
    TwoItemsThere(p, v, b);
    var a := new InfinityStringArray.Open(maxCacheSize, p, Disk(p, v, b), 3, 1, Room(p), TwoItems(p, v, b));
    read, hung := SetAndGet(a, p, v, b);
    tail, hung := a.thread.Read(Key(File(0, 1), 0), 8, a.room);
  }
}
