/** InfinityStringArray of simpledb: byte strings in sectors of an InfinityFile, and a file of records. */
module StringArray {
  import opened Bytes
  import opened Options
  import opened Seqs
  import opened Cache
  import opened PartFile
  import opened Sectors

  // ------------------------------------------------------------------ what a set does to a slot

  /** Whether setBytes needs a longer sector than the present data does. */
  predicate Moves(d: Slot, bytes: seq<byte>) {
    SectorLength(|bytes|) > SectorLength(|d.item|)
  }

  /** A byte, or none, for an item without a sector: it is written at 0, where another item may be. */
  predicate Clash(d: Slot, bytes: seq<byte>, sum: nat) {
    d.alloc == 0 && !Moves(d, bytes) && sum > 0
  }

  function AfterSet(d: Slot, bytes: seq<byte>, sum: nat): Slot {
    if Moves(d, bytes) then Slot(sum, SectorLength(|bytes|), bytes)
    else if d.alloc == 0 then Slot(0, 1, bytes)
    else d.(item := bytes)
  }

  function GrownBy(d: Slot, bytes: seq<byte>, sum: nat): nat {
    if Moves(d, bytes) then SectorLength(|bytes|) else if d.alloc == 0 && sum == 0 then 1 else 0
  }

  /** The slot of a byte string that is added. */
  function Added(bytes: seq<byte>, sum: nat): Slot {
    if bytes == [] then Slot(0, 0, []) else Slot(sum, SectorLength(|bytes|), bytes)
  }

  /** By how much a set may raise the count of cached bytes too far: what the write leaves of the sector. */
  function SetCost(d: Slot, bytes: seq<byte>): nat {
    if Moves(d, bytes) || d.alloc <= SectorLength(|d.item|) then 0 else d.alloc - SectorLength(|d.item|)
  }

  /** How slot i is to become d by n bytes written in a data file that has `was` bytes and will have `sum`. */
  ghost predicate SetPlan(s: State, room: map<Key, nat>, f: Layout, slots: seq<Slot>, i: nat, d: Slot, n: nat, was: nat, sum: nat) {
    && i < |slots| && Represents(s, room, f, was, slots) && CanWrite(room, f, i, d, n) && |d.item| <= MAX_LENGTH
    && Bounded(room, f.data, f.partSize, sum) && Bounded(room, f.meta, f.partSize, RECORD * |slots|)
    && n == SectorLength(|slots[i].item|) && SectorLength(|d.item|) <= n && d == AfterSet(slots[i], d.item, was) && d.start == slots[i].start
    && sum == was + GrownBy(slots[i], d.item, was) < TWO_63 && d.start <= was && (d.start < was ==> d.start + n <= was)
    && (d.start == was ==> sum == was + n)
    && (sum > was ==> RoomIs(room, f.data, f.partSize, 0, 1))
    && RoomOf(room, f.data, f.partSize, d.start, n) <= f.partSize
    && (slots[i].alloc > 0 ==> RoomOf(room, f.data, f.partSize, d.start, n) <= slots[i].alloc)
  }

  /** A slot has been set in its own sector, or in the first one of an empty file. */
  lemma {:induction false} SetRepresents(s: State, t: State, room: map<Key, nat>, f: Layout, was: nat, slots: seq<Slot>, i: nat, d: Slot, n: nat)
    requires Represents(s, room, f, was, slots) && i < |slots| && (slots[i].alloc > 0 || was == 0) && |d.item| <= MAX_LENGTH
    requires SectorLength(|d.item|) <= n == SectorLength(|slots[i].item|) && d == AfterSet(slots[i], d.item, was) && f.partSize >= RECORD
    requires slots[i].alloc == 0 ==> RoomIs(room, f.data, f.partSize, 0, 1)
    requires BothWritten(s, t, room, f, i, d, n)
    ensures Represents(t, room, f, was + GrownBy(slots[i], d.item, was), slots[i := d])
  {
    hide BothWritten, MetaOk, DataOk;
    assert SlotOk(s, room, f, was, i, slots[i]);
    if slots[i].alloc > 0 {
      OldSlot(s, t, room, f, was, slots, i, d.item, n);
    } else {
      SectorIsLeast(|d.item|, 0);
      NewSlot(s, t, room, f, was, slots, i, d);
    }
  }

  // ------------------------------------------------------------------ the array

  class InfinityStringArray {
    const thread: ActionThread
    const data: InfinityFile
    const meta: InfinityFile
    ghost var room: map<Key, nat>
    ghost var slots: seq<Slot>

    ghost function Files(): Layout {
      Layout(data.name, meta.name, data.partSize)
    }

    ghost predicate FilesValid()
      reads data, meta
    {
      && data != meta && data.partSize == meta.partSize && data.name != meta.name && data.Valid() && meta.Valid()
      && data.sumFilesSize < TWO_63
    }

    /** Records and items are in place; there is room for records up to metaSum. */
    ghost predicate InOrder(metaSum: nat)
      reads `room, `slots, thread, data, meta
    {
      && FilesValid() && Sound(thread.Now(), room)
      && Bounded(room, data.name, data.partSize, data.sumFilesSize)
      && Bounded(room, meta.name, meta.partSize, metaSum)
      && Represents(thread.Now(), room, Files(), data.sumFilesSize, slots)
    }

    /** The array stores the items of `slots`, in order. */
    ghost predicate Valid()
      reads `room, `slots, thread, data, meta
    {
      InOrder(meta.sumFilesSize) && meta.sumFilesSize == RECORD * |slots|
    }

    /** By how much the count of cached bytes is too high. */
    ghost function Excess(): int
      requires Sound(thread.Now(), room)
      reads `room, thread
    {
      Drift(thread.Now())
    }

    constructor (maxCacheSize: int, partSize: nat)
      requires partSize >= RECORD
      ensures Valid() && slots == [] && fresh(thread) && fresh(data) && fresh(meta)
      ensures data.partSize == partSize && data.sumFilesSize == 0 && data.name == 0 && meta.name == 1
      ensures thread.maxCacheSize == maxCacheSize && thread.Now() == State(map[], [], [], 0, map[])
    {
      thread := new ActionThread(maxCacheSize);
      data := new InfinityFile(0, partSize);
      meta := new InfinityFile(1, partSize);
      room, slots := map[], [];
    }

    /** An array on files that hold the items of these slots, as a program finds them when it starts. */
    constructor Open(maxCacheSize: int, partSize: nat, disk: map<File, seq<byte>>, dataParts: nat, metaParts: nat,
                     ghost room: map<Key, nat>, ghost slots: seq<Slot>)
      requires partSize >= RECORD && (forall i :: 0 <= i < dataParts ==> File(0, i) in disk) && (forall i :: 0 <= i < metaParts ==> File(1, i) in disk)
      requires var sum := SizeFrom(disk, 0, 0, dataParts);
        && (dataParts == sum / partSize + 1 || (dataParts == 0 && sum == 0)) && sum < TWO_63 && Bounded(room, 0, partSize, sum)
        && Represents(State(map[], [], [], 0, disk), room, Layout(0, 1, partSize), sum, slots)
      requires var sum := SizeFrom(disk, 1, 0, metaParts);
        && (metaParts == sum / partSize + 1 || (metaParts == 0 && sum == 0)) && Bounded(room, 1, partSize, sum) && sum == RECORD * |slots|
      requires Disjoint(room)
      ensures Valid() && this.slots == slots && fresh(thread) && fresh(data) && fresh(meta) && data.partSize == partSize
      ensures data.sumFilesSize == SizeFrom(disk, 0, 0, dataParts) && data.name == 0 && meta.name == 1
      ensures this.room == room && thread.maxCacheSize == maxCacheSize && thread.Now() == State(map[], [], [], 0, disk)
    {
      thread := new ActionThread.Open(maxCacheSize, disk);
      data := new InfinityFile.Open(0, partSize, disk, dataParts);
      meta := new InfinityFile.Open(1, partSize, disk, metaParts);
      this.room, this.slots := room, slots;
    }

    /** getSectorLength, which doubles an int and therefore needs lengths of at most 2^30. */
    method GetSectorLength(dataLength: nat) returns (sectorSize: nat)
      requires dataLength <= MAX_LENGTH
      ensures sectorSize == SectorLength(dataLength) && sectorSize <= MAX_LENGTH
    {
      sectorSize := 1;
      assert Pow2(30) == MAX_LENGTH by { assert Pow2(15) == 0x8000; PowersMultiply(15, 15); }
      SectorIsLeast(dataLength, 30);
      while sectorSize < dataLength
        invariant sectorSize > 0 && Doubled(sectorSize, dataLength) == SectorLength(dataLength)
        decreases dataLength - sectorSize
      {
        sectorSize := sectorSize * 2;
      }
    }

    /** One turn of the background flusher. */
    method Flush()
      requires Valid()
      modifies thread
      ensures Valid() && Excess() == old(Excess())
      ensures old(thread.writeSequences) == [] ==> thread.Now() == old(thread.Now())
      ensures old(thread.writeSequences) != [] ==> thread.writeSequences == old(thread.writeSequences)[1..]
    {
      ghost var s := thread.Now();
      thread.Flush(room);
      FlushedRepresents(s, thread.Now(), room, Files(), data.sumFilesSize, slots);
    }

    // ---------------------------------------------------------------- reading

    /** getMeta: InfinityConstArray.get fails for an index without a record. */
    method GetMeta(index: nat) returns (r: Option<MetaCell>, hung: bool)
      requires Valid()
      modifies thread, meta`files
      ensures hung ==> thread.Stuck() && index < |slots|
      ensures Sound(thread.Now(), room) && Excess() == old(Excess())
      ensures index < |slots| ==> ReadHangs(old(thread.Now()), meta.name, meta.partSize, RECORD * index, RECORD, thread.maxCacheSize, hung)
      ensures MetaKeys(Files(), index) <= old(thread.cache.Keys) ==> thread.Now() == old(thread.Now())
      ensures !hung ==> Valid() && r == if index < |slots| then Some(slots[index].Cell()) else None
      ensures forall k :: k in thread.cache ==> k in old(thread.cache) || k.file.name == meta.name
    {
      r := None;
      ghost var s := thread.Now();
      var read;
      read, hung := ReadRecord(index);
      if !hung && read.Data? {
        RecordParses(s, room, Files(), data.sumFilesSize, slots, index);
        r := Some(Parse(read.bytes));
      }
    }

    method ReadRecord(index: nat) returns (r: ReadResult, hung: bool)
      requires Valid()
      modifies thread, meta`files
      ensures hung ==> thread.Stuck() && index < |slots|
      ensures Sound(thread.Now(), room) && Excess() == old(Excess())
      ensures index < |slots| ==> ReadHangs(old(thread.Now()), meta.name, meta.partSize, RECORD * index, RECORD, thread.maxCacheSize, hung)
      ensures MetaKeys(Files(), index) <= old(thread.cache.Keys) ==> thread.Now() == old(thread.Now())
      ensures !hung ==> Valid() && r == if index < |slots| then Data(Build(slots[index].Cell())) else Null
      ensures forall k :: k in thread.cache ==> k in old(thread.cache) || k.file.name == meta.name
    {
      ghost var s := thread.Now();
      RecordFits(s, room, Files(), data.sumFilesSize, slots, index);
      r, hung := meta.Read(thread, index * RECORD, RECORD, room);
      if !hung && index < |slots| {
        MetaReadKeeps(s, thread.Now(), room, Files(), data.sumFilesSize, slots, index, r.bytes);
      }
    }

    /**
     * getObject, which hands the bytes to a parser. The bytes are always right. But reading an
     * empty item may leave an empty entry in the cache at the first byte of a part, which hides
     * what is on disk there: the item that has this byte is lost unless the offset was cached.
     */
    method GetBytes(index: nat) returns (r: Option<seq<byte>>, hung: bool)
      requires Valid()
      modifies `room, thread, meta`files, data`files
      ensures hung ==> thread.Stuck() && index < |slots| && old(Excess()) != 0 && old(Excess()) + data.partSize > thread.maxCacheSize
      ensures index < |slots| && old(SpinsAtRecord(index) || SpinsAtItem(index)) ==> hung
      ensures Sound(thread.Now(), room) && Excess() == old(Excess())
      ensures data.sumFilesSize > 0 ==> room == old(room)
      ensures !hung ==> r == if index < |slots| then Some(slots[index].item) else None
      ensures !hung && !(index < |slots| && Risky(data.partSize, slots[index])) ==> Valid()
      ensures !hung && index < |slots| && Risky(data.partSize, slots[index]) ==> Probing(index, old(thread.cache))
    {
      r := None;
      var cell;
      cell, hung := GetMeta(index);
      if hung || cell == None { return; }
      var bytes;
      bytes, hung := ReadItem(index, cell.value);
      r := Some(bytes);
    }

    /** The array after a risky read: it is in order exactly if nothing is hidden, and other items are untouched. */
    ghost predicate Probing(index: nat, cache: map<Key, CacheData>)
      requires index < |slots|
      reads `room, `slots, thread, data, meta
    {
      data.partSize > 0 &&
      var k := ProbeKey(data.name, data.partSize, slots[index].start);
      && LeftOver(thread.Now(), room, Files(), data.sumFilesSize, slots, k)
      && (k !in cache ==> thread.cache[k].data == [])
      && (Valid() <==> thread.cache[k].data != [] || NoVictim(Files(), k, slots))
    }

    /** The record is not cached, and with the excess its first piece is beyond the limit. */
    ghost predicate SpinsAtRecord(index: nat)
      requires Sound(thread.Now(), room) && meta.partSize > 0
      reads `room, thread, meta
    {
      && Excess() > 0 && KeyAt(meta.name, meta.partSize, RECORD * index) !in thread.cache
      && Excess() + FirstPiece(meta.partSize, RECORD * index, RECORD) > thread.maxCacheSize
    }

    /** The same for the item, when the record is cached. */
    ghost predicate SpinsAtItem(index: nat)
      requires Sound(thread.Now(), room) && data.partSize > 0 && index < |slots|
      reads `room, `slots, thread, data, meta
    {
      && MetaKeys(Files(), index) <= thread.cache.Keys
      && Excess() > 0 && KeyAt(data.name, data.partSize, slots[index].start) !in thread.cache
      && Excess() + FirstPiece(data.partSize, slots[index].start, |slots[index].item|) > thread.maxCacheSize
    }

    method ReadItem(ghost index: nat, cell: MetaCell) returns (bytes: seq<byte>, hung: bool)
      requires Valid() && index < |slots| && cell == slots[index].Cell()
      modifies `room, thread, data`files
      ensures hung ==> thread.Stuck() && old(Excess()) != 0 && old(Excess()) + data.partSize > thread.maxCacheSize
      ensures ReadHangs(old(thread.Now()), data.name, data.partSize, cell.start, cell.length, thread.maxCacheSize, hung)
      ensures Sound(thread.Now(), room) && Excess() == old(Excess())
      ensures data.sumFilesSize > 0 ==> room == old(room)
      ensures !hung ==> bytes == slots[index].item
      ensures !hung && !Risky(data.partSize, slots[index]) ==> Valid()
      ensures !hung && Risky(data.partSize, slots[index]) ==> Probing(index, old(thread.cache))
    {
      ghost var s := thread.Now();
      RoomToRead(index);
      var read;
      read, hung := data.Read(thread, cell.start, cell.length, room);
      bytes := [];
      if hung { return; }
      bytes := read.bytes;
      if Risky(data.partSize, slots[index]) {
        RiskyReadLoses(s, thread.Now(), room, Files(), data.sumFilesSize, slots, index, bytes);
        Judged(index);
      } else {
        DataReadKeeps(s, thread.Now(), room, Files(), data.sumFilesSize, slots, index, bytes);
      }
    }

    /** Whether the array is in order after a risky read. */
    lemma {:induction false} Judged(index: nat)
      requires index < |slots| && FilesValid() && Sound(thread.Now(), room) && data.partSize >= RECORD
      requires Bounded(room, data.name, data.partSize, data.sumFilesSize) && Bounded(room, meta.name, meta.partSize, meta.sumFilesSize)
      requires meta.sumFilesSize == RECORD * |slots| && forall i, j :: 0 <= i < j < |slots| ==> SlotsApart(slots[i], slots[j])
      requires LeftOver(thread.Now(), room, Files(), data.sumFilesSize, slots, ProbeKey(data.name, data.partSize, slots[index].start))
      ensures var k := ProbeKey(data.name, data.partSize, slots[index].start);
        Valid() <==> thread.cache[k].data != [] || NoVictim(Files(), k, slots)
    {
      var k, t, f := ProbeKey(data.name, data.partSize, slots[index].start), thread.Now(), Files();
      if thread.cache[k].data != [] || NoVictim(f, k, slots) {
        forall j | 0 <= j < |slots| ensures SlotOk(t, room, f, data.sumFilesSize, j, slots[j]) { assert slots[j] == slots[j]; }
      } else {
        var j :| 0 <= j < |slots| && Victim(f, k, slots[j]);
        assert !SlotOk(t, room, f, data.sumFilesSize, j, slots[j]);
      }
    }

    /** There is room for reading the item, if only for no bytes at 0 of an empty file. */
    ghost method RoomToRead(index: nat)
      requires Valid() && index < |slots|
      modifies `room
      ensures Valid() && Excess() == old(Excess()) && |slots[index].item| <= data.partSize
      ensures data.sumFilesSize > 0 ==> room == old(room)
      ensures slots[index].start + |slots[index].item| <= data.sumFilesSize
      ensures RoomFor(room, data.name, data.partSize, slots[index].start, |slots[index].item|)
      ensures slots[index].item == [] && slots[index].alloc > 0 ==> Placed(room, Files(), data.sumFilesSize, slots[index])
    {
      ghost var d, f := slots[index], Files();
      assert SlotOk(thread.Now(), room, f, data.sumFilesSize, index, d);
      if d.alloc > 0 {
        InSector(room, f, data.sumFilesSize, d);
      } else if data.sumFilesSize > 0 {
        assert Begun(room, data.name, 0);
      } else {
        ghost var k := KeyAt(data.name, data.partSize, 0);
        if k !in room { RoomAtZero(k); }
      }
    }

    ghost method RoomAtZero(k: Key)
      requires Valid() && data.sumFilesSize == 0 && k == KeyAt(data.name, data.partSize, 0) && k !in room
      modifies `room
      ensures Valid() && Excess() == old(Excess()) && k in room
    {
      ghost var more, s := room[k := 0], thread.Now();
      forall i, j | i in more && j in more && i != j ensures RoomsApart(more, i, j) {
        if i in room && j in room { assert RoomsApart(room, i, j); }
        if i in room { assert Within(room, data.name, data.partSize, 0, i); }
        if j in room { assert Within(room, data.name, data.partSize, 0, j); }
      }
      forall i | i in s.cache ensures EntryOk(s, more, i) { assert EntryOk(s, room, i); }
      forall i | i in more ensures Within(more, data.name, data.partSize, 0, i) {
        if i in room { assert Within(room, data.name, data.partSize, 0, i); }
      }
      MoreRoomRepresents(s, room, more, data.name, Files(), 0, slots);
      StillBounded(room, more, data.name, meta.name, meta.partSize, meta.sumFilesSize);
      room := more;
    }

    // ---------------------------------------------------------------- room at the ends of the files

    /** Room for a sector at the end of the data file. */
    ghost method GrowData(n: nat, metaSum: nat)
      requires InOrder(metaSum) && 0 < n <= data.partSize
      modifies `room
      ensures FilesValid() && Sound(thread.Now(), room) && RoomIs(room, data.name, data.partSize, data.sumFilesSize, n)
      ensures Bounded(room, data.name, data.partSize, data.sumFilesSize + n)
      ensures Bounded(room, meta.name, meta.partSize, metaSum)
      ensures Represents(thread.Now(), room, Files(), data.sumFilesSize, slots)
      ensures Wider(old(room), room, data.name)
    {
      MoreRoomKeeps(thread.Now(), room, data.name, data.partSize, data.sumFilesSize, n);
      MoreRoomIsBounded(room, data.name, data.partSize, data.sumFilesSize, n);
      ghost var more := MoreRoom(room, data.name, data.partSize, data.sumFilesSize, n);
      MoreRoomRepresents(thread.Now(), room, more, data.name, Files(), data.sumFilesSize, slots);
      StillBounded(room, more, data.name, meta.name, meta.partSize, metaSum);
      room := more;
    }

    /** Room for a record at the end of the file of records. */
    ghost method GrowMeta()
      requires Valid()
      modifies `room
      ensures InOrder(meta.sumFilesSize + RECORD) && RoomIs(room, meta.name, meta.partSize, meta.sumFilesSize, RECORD)
      ensures Excess() == old(Excess())
    {
      MoreRoomKeeps(thread.Now(), room, meta.name, meta.partSize, meta.sumFilesSize, RECORD);
      MoreRoomIsBounded(room, meta.name, meta.partSize, meta.sumFilesSize, RECORD);
      ghost var more := MoreRoom(room, meta.name, meta.partSize, meta.sumFilesSize, RECORD);
      MoreRoomRepresents(thread.Now(), room, more, meta.name, Files(), data.sumFilesSize, slots);
      StillBounded(room, more, meta.name, data.name, data.partSize, data.sumFilesSize);
      room := more;
    }

    /** The files hold these slots. */
    ghost method Remember(now: seq<Slot>)
      requires FilesValid() && Sound(thread.Now(), room) && meta.sumFilesSize == RECORD * |now|
      requires Bounded(room, data.name, data.partSize, data.sumFilesSize) && Bounded(room, meta.name, meta.partSize, meta.sumFilesSize)
      requires Represents(thread.Now(), room, Files(), data.sumFilesSize, now)
      modifies `slots
      ensures Valid() && slots == now && Excess() == old(Excess())
    {
      slots := now;
    }

    // ---------------------------------------------------------------- new sectors

    /** The loop of addToCache may only spin if the excess and one part together are beyond the limit. */
    ghost predicate Spins(excess: int, hung: bool) {
      hung ==> excess + data.partSize > thread.maxCacheSize
    }

    /** The sector of d has been written; no record points at it yet. */
    ghost predicate SectorWaits(s: State, metaSum: nat, d: Slot)
      reads `room, `slots, thread, data, meta
    {
      && FilesValid() && Sound(thread.Now(), room) && |d.item| <= MAX_LENGTH
      && data.sumFilesSize == d.start + d.alloc && d.alloc == SectorLength(|d.item|) && |d.item| <= d.alloc && 0 < d.alloc <= data.partSize
      && Bounded(room, data.name, data.partSize, d.start + d.alloc) && Bounded(room, meta.name, meta.partSize, metaSum)
      && Represents(s, room, Files(), d.start, slots) && RoomIs(room, data.name, data.partSize, d.start, d.alloc)
      && IsWrittenAt(s, thread.Now(), room, data.name, data.partSize, d.start, Sector(d.item, d.alloc))
    }

    /** super.add(sectorWithData): the data in a sector behind everything that the data file has. */
    method AddSector(bytes: seq<byte>, n: nat, ghost metaSum: nat) returns (start: nat, hung: bool)
      requires InOrder(metaSum) && n == SectorLength(|bytes|) <= data.partSize && data.sumFilesSize + n < TWO_63
      requires |bytes| <= MAX_LENGTH
      modifies `room, thread, data
      ensures hung ==> thread.Stuck()
      ensures |bytes| <= n && Spins(old(Excess()), hung)
      ensures start == old(data.sumFilesSize) && data.sumFilesSize == start + n && FilesValid()
      ensures !hung ==> SectorWaits(old(thread.Now()), metaSum, Slot(start, n, bytes)) && Excess() <= old(Excess())
      ensures Wider(old(room), room, data.name)
      ensures (old(Excess()) > 0 && KeyAt(data.name, data.partSize, start) !in old(thread.cache) &&
               old(Excess()) + FirstPiece(data.partSize, start, n) > thread.maxCacheSize) ==> hung
      ensures (n <= Fit(data.partSize, start) && Easy(old(thread.Now()), KeyAt(data.name, data.partSize, start), n, thread.maxCacheSize)) ==>
        !hung && Direct(old(thread.Now()), thread.Now(), KeyAt(data.name, data.partSize, start), Sector(bytes, n))
    {
      hide Represents, Sound, Bounded, IsWrittenAt, SectorLength;
      SectorIsLeast(|bytes|, 0);
      GrowData(n, metaSum);
      RoomWithin(room, data.name, data.partSize, data.sumFilesSize, n, n);
      start, hung := data.Add(thread, Sector(bytes, n), room);
    }

    method SetInNewSector(index: nat, bytes: seq<byte>, sectorLength: nat) returns (hung: bool)
      requires Valid() && |bytes| <= MAX_LENGTH && sectorLength == SectorLength(|bytes|) <= data.partSize
      requires data.sumFilesSize + sectorLength < TWO_63 && index < |slots|
      modifies this, thread, data, meta
      ensures hung ==> thread.Stuck()
      ensures Spins(old(Excess()), hung)
      ensures !hung ==> Valid() && slots == old(slots)[index := Slot(old(data.sumFilesSize), sectorLength, bytes)]
      ensures !hung ==> data.sumFilesSize == old(data.sumFilesSize) + sectorLength && Excess() <= old(Excess())
    {
      ghost var s := thread.Now();
      assert SlotOk(s, room, Files(), data.sumFilesSize, index, slots[index]);
      var start;
      start, hung := AddSector(bytes, sectorLength, meta.sumFilesSize);
      if hung { return; }
      hung := PointAtSector(index, Slot(start, sectorLength, bytes), s);
    }

    method PointAtSector(index: nat, d: Slot, ghost s: State) returns (hung: bool)
      requires SectorWaits(s, meta.sumFilesSize, d) && index < |slots| && meta.sumFilesSize == RECORD * |slots|
      requires RoomIs(room, meta.name, meta.partSize, RECORD * index, RECORD)
      modifies this, thread, meta
      ensures hung ==> thread.Stuck()
      ensures Spins(old(Excess()), hung)
      ensures !hung ==> Valid() && slots == old(slots)[index := d] && Excess() <= old(Excess())
    {
      hide Bounded, IsWrittenAt, SectorLength, Total, SlotOk, Build, Sector;
      ghost var u := thread.Now();
      hung := WriteRecord(index, d.Cell());
      if hung { return; }
      NewSlotStored(s, u, thread.Now(), room, Files(), d.start, slots, index, d);
      Remember(Put(slots, index, d));
    }

    // ---------------------------------------------------------------- old sectors

    /** The record and n bytes of data can be written for slot `index`, which is then d; the data file is then `sum` long. */
    ghost predicate CanSet(s: State, index: nat, d: Slot, n: nat, was: nat, sum: nat)
      reads `room, `slots, thread, data, meta
    {
      && FilesValid() && Sound(thread.Now(), room) && meta.sumFilesSize == RECORD * |slots|
      && SetPlan(s, room, Files(), slots, index, d, n, was, sum)
    }

    /** Room for one byte at 0, if that is where the data goes and there is none. */
    ghost method RoomToSet(index: nat, bytes: seq<byte>) returns (d: Slot, sum: nat)
      requires Valid() && index < |slots| && |bytes| <= MAX_LENGTH && !Moves(slots[index], bytes) && data.sumFilesSize + 1 < TWO_63
      modifies `room
      ensures Sound(thread.Now(), room) && Excess() == old(Excess())
      ensures CanSet(thread.Now(), index, d, SectorLength(|slots[index].item|), data.sumFilesSize, sum)
      ensures d == AfterSet(slots[index], bytes, data.sumFilesSize) && (sum == data.sumFilesSize ==> room == old(room))
    {
      hide Total, EntryOk, Sector, Build;
      ghost var c, f, n := slots[index], Files(), SectorLength(|slots[index].item|);
      d, sum := AfterSet(c, bytes, data.sumFilesSize), data.sumFilesSize + GrownBy(c, bytes, data.sumFilesSize);
      assert SlotOk(thread.Now(), room, f, data.sumFilesSize, index, c);
      SectorIsLeast(|bytes|, 0);
      if c.alloc > 0 {
        OldSectorFits(thread.Now(), room, f, data.sumFilesSize, slots, index, bytes);
      } else {
        assert n == 1;
        if data.sumFilesSize == 0 { GrowData(1, meta.sumFilesSize); RoomWithin(room, data.name, data.partSize, 0, 1, 1); }
        else { RoomForByte(); }
      }
    }

    lemma {:induction false} RoomForByte()
      requires Valid() && data.sumFilesSize > 0
      ensures RoomFor(room, data.name, data.partSize, 0, 1) && 1 <= RoomOf(room, data.name, data.partSize, 0, 1) <= data.partSize
    {
      assert Begun(room, data.name, 0);
      assert Within(room, data.name, data.partSize, data.sumFilesSize, KeyAt(data.name, data.partSize, 0));
    }

    /** The record, and then the data with zeros behind it up to the old length of the sector. */
    method SetInOldSector(index: nat, cell: MetaCell, bytes: seq<byte>, sectorLength: nat) returns (hung: bool)
      requires Valid() && |bytes| <= MAX_LENGTH && index < |slots| && cell == slots[index].Cell() && data.sumFilesSize + 1 < TWO_63
      requires SectorLength(|bytes|) <= sectorLength == SectorLength(cell.length)
      modifies this, thread, data, meta
      ensures hung ==> thread.Stuck()
      ensures Spins(old(Excess()), hung)
      ensures !hung ==> SetDone(index, bytes, old(slots), old(data.sumFilesSize), old(Excess()), old(room))
      ensures forall k :: k in thread.cache ==> k in old(thread.cache) || k.file.name == meta.name || k in KeysOf(data.name, data.partSize, cell.start, sectorLength)
      ensures old(InReach(index)) ==> !hung && DirectSet(index, bytes, old(slots), old(thread.Now()))
    {
      ghost var s, was := thread.Now(), data.sumFilesSize;
      ghost var d, sum := RoomToSet(index, bytes);
      hung := WriteBoth(index, cell, bytes, sectorLength, d, sum);
      if hung { return; }
      Conclude(s, index, d, sectorLength, was, sum);
    }

    /** The two writes. */
    method WriteBoth(index: nat, cell: MetaCell, bytes: seq<byte>, n: nat, ghost d: Slot, ghost sum: nat) returns (hung: bool)
      requires CanSet(thread.Now(), index, d, n, data.sumFilesSize, sum) && cell == slots[index].Cell() && bytes == d.item && |bytes| <= n
      modifies thread, data, meta
      ensures hung ==> thread.Stuck()
      ensures Spins(old(Excess()), hung)
      ensures !hung ==> CanSet(old(thread.Now()), index, d, n, old(data.sumFilesSize), sum) && data.sumFilesSize == sum
      ensures !hung ==> BothWritten(old(thread.Now()), thread.Now(), room, Files(), index, d, n)
      ensures !hung ==> Excess() <= old(Excess()) + RoomOf(room, data.name, data.partSize, d.start, n) - n
      ensures !hung && n <= Fit(data.partSize, d.start) ==>
        KeyAt(data.name, data.partSize, d.start) in thread.cache && thread.cache[KeyAt(data.name, data.partSize, d.start)].data == Sector(d.item, n)
      ensures forall k :: k in thread.cache ==> k in old(thread.cache) || k.file.name == meta.name || k in KeysOf(data.name, data.partSize, d.start, n)
      ensures old(InReach(index)) ==> !hung && DirectSet(index, bytes, slots, old(thread.Now()))
    {
      ghost var s := thread.Now();
      var changed := cell.(length := |bytes|);
      assert changed == d.Cell();
      hung := WriteRecord(index, changed);
      if hung { return; }
      ghost var u := thread.Now();
      hung := WriteSector(cell.start, Sector(bytes, n), sum);
      if hung { return; }
      RecordThenSector(s, u, thread.Now(), room, Files(), index, d, n);
    }

    /** meta.set. */
    method WriteRecord(index: nat, c: MetaCell) returns (hung: bool)
      requires FilesValid() && meta.partSize >= RECORD && Sound(thread.Now(), room) && RECORD * index + RECORD <= meta.sumFilesSize
      requires RoomIs(room, meta.name, meta.partSize, RECORD * index, RECORD)
      modifies thread, meta
      ensures hung ==> thread.Stuck() && old(Excess()) + RECORD > thread.maxCacheSize
      ensures FilesValid() && Sound(thread.Now(), room) && meta.sumFilesSize == old(meta.sumFilesSize)
      ensures !hung ==> IsWrittenAt(old(thread.Now()), thread.Now(), room, meta.name, meta.partSize, RECORD * index, Build(c))
      ensures !hung ==> Excess() <= old(Excess())
      ensures forall k :: k in thread.cache ==> k in old(thread.cache) || k in MetaKeys(Files(), index)
      ensures (RECORD <= Fit(meta.partSize, RECORD * index) && KeyAt(meta.name, meta.partSize, RECORD * index) in old(thread.cache)) ==>
        !hung && Direct(old(thread.Now()), thread.Now(), KeyAt(meta.name, meta.partSize, RECORD * index), Build(c))
    {
      RoomWithin(room, meta.name, meta.partSize, RECORD * index, RECORD, RECORD);
      hung := meta.Write(thread, index * RECORD, Build(c), room);
    }

    /** write, of a whole sector; the file is then `sum` long. */
    method WriteSector(start: nat, sector: seq<byte>, ghost sum: nat) returns (hung: bool)
      requires FilesValid() && Sound(thread.Now(), room) && 0 < |sector| <= data.partSize && start <= data.sumFilesSize && sum < TWO_63
      requires RoomFor(room, data.name, data.partSize, start, |sector|)
      requires if start < data.sumFilesSize then start + |sector| <= data.sumFilesSize == sum else sum == start + |sector|
      modifies thread, data
      ensures hung ==> thread.Stuck() && old(Excess()) + RoomOf(room, data.name, data.partSize, start, |sector|) > thread.maxCacheSize
      ensures FilesValid() && Sound(thread.Now(), room) && data.sumFilesSize == sum
      ensures !hung ==> IsWrittenAt(old(thread.Now()), thread.Now(), room, data.name, data.partSize, start, sector)
      ensures forall k :: k in thread.cache ==> k in old(thread.cache) || k in KeysOf(data.name, data.partSize, start, |sector|)
      ensures !hung ==> Excess() <= old(Excess()) + RoomOf(room, data.name, data.partSize, start, |sector|) - |sector|
      ensures (|sector| <= Fit(data.partSize, start) && KeyAt(data.name, data.partSize, start) in old(thread.cache)) ==>
        !hung && Direct(old(thread.Now()), thread.Now(), KeyAt(data.name, data.partSize, start), sector)
    {
      hung := data.Write(thread, start, sector, room);
    }

    /** What a set leaves behind, in a clash and otherwise. */
    ghost predicate SetDone(index: nat, bytes: seq<byte>, old_: seq<Slot>, sum: nat, excess: int, room_: map<Key, nat>)
      requires index < |old_|
      reads `room, `slots, thread, data, meta
    {
      if Clash(old_[index], bytes, sum) then
        Clashed(index, bytes, old_, sum) && room == room_ && (KeyAt(data.name, data.partSize, 0) in room) &&
        Excess() <= excess + room[KeyAt(data.name, data.partSize, 0)] - 1
      else WasSet(index, bytes, old_, sum) && Excess() <= excess + SetCost(old_[index], bytes)
    }

    ghost predicate WasSet(index: nat, bytes: seq<byte>, old_: seq<Slot>, sum: nat)
      requires index < |old_|
      reads `room, `slots, thread, data, meta
    {
      Valid() && slots == old_[index := AfterSet(old_[index], bytes, sum)] && data.sumFilesSize == sum + GrownBy(old_[index], bytes, sum)
    }

    /** The byte at 0 is the one of this item; another item with a sector there is lost, unless it is that byte. */
    ghost predicate Clashed(index: nat, bytes: seq<byte>, old_: seq<Slot>, sum: nat)
      requires index < |old_|
      reads `room, `slots, thread, data, meta
    {
      && FilesValid() && data.partSize > 0 && Sound(thread.Now(), room) && |bytes| <= 1 && data.sumFilesSize == sum
      && Bounded(room, data.name, data.partSize, data.sumFilesSize)
      && slots == old_[index := Slot(0, 1, bytes)]
      && MetaOk(thread.Now(), room, Files(), index, slots[index].Cell()) && DataOk(thread.Now(), Files(), slots[index])
      && forall j :: 0 <= j < |slots| && j != index ==>
           Overwritten(thread.Now(), room, Files(), data.sumFilesSize, j, old_[j], Sector(bytes, 1))
    }

    ghost method Conclude(s: State, index: nat, d: Slot, n: nat, was: nat, sum: nat)
      requires CanSet(s, index, d, n, was, sum) && data.sumFilesSize == sum && BothWritten(s, thread.Now(), room, Files(), index, d, n)
      requires n <= Fit(data.partSize, d.start) ==>
        KeyAt(data.name, data.partSize, d.start) in thread.cache && thread.cache[KeyAt(data.name, data.partSize, d.start)].data == Sector(d.item, n)
      modifies `slots
      ensures if Clash(old(slots)[index], d.item, was) then Clashed(index, d.item, old(slots), was) else WasSet(index, d.item, old(slots), was)
    {
      hide Represents, Sound, Bounded, BothWritten, WasSet, Clashed, SectorLength;
      if slots[index].alloc == 0 && was > 0 {
        ConcludeClash(s, index, d, n, was);
      } else {
        ConcludeSet(s, index, d, n, was, sum);
      }
    }

    ghost method ConcludeSet(s: State, index: nat, d: Slot, n: nat, was: nat, sum: nat)
      requires CanSet(s, index, d, n, was, sum) && data.sumFilesSize == sum && BothWritten(s, thread.Now(), room, Files(), index, d, n)
      requires slots[index].alloc > 0 || was == 0
      modifies `slots
      ensures WasSet(index, d.item, old(slots), was)
    {
      hide BothWritten, Sound;
      SetRepresents(s, thread.Now(), room, Files(), was, slots, index, d, n);
      Remember(slots[index := d]);
    }

    ghost method ConcludeClash(s: State, index: nat, d: Slot, n: nat, was: nat)
      requires CanSet(s, index, d, n, was, was) && data.sumFilesSize == was && BothWritten(s, thread.Now(), room, Files(), index, d, n)
      requires slots[index].alloc == 0 && was > 0 && n <= Fit(data.partSize, d.start)
      requires KeyAt(data.name, data.partSize, d.start) in thread.cache && thread.cache[KeyAt(data.name, data.partSize, d.start)].data == Sector(d.item, n)
      modifies `slots
      ensures Clashed(index, d.item, old(slots), was)
    {
      assert SlotOk(s, room, Files(), was, index, slots[index]);
      assert n == 1;
      ClashLoses(s, thread.Now(), room, Files(), was, slots, index, d);
      slots := slots[index := d];
    }

    /** Record and data of the item are each in one part, and both are cached. */
    ghost predicate InReach(index: nat)
      requires index < |slots| && data.partSize > 0 && meta.partSize > 0
      reads `slots, thread
    {
      && slots[index].alloc > 0
      && RECORD <= Fit(meta.partSize, RECORD * index) && KeyAt(meta.name, meta.partSize, RECORD * index) in thread.cache
      && SectorLength(|slots[index].item|) <= Fit(data.partSize, slots[index].start)
      && KeyAt(data.name, data.partSize, slots[index].start) in thread.cache
    }

    /** The effect of setting such an item on the cache. */
    ghost predicate DirectSet(index: nat, bytes: seq<byte>, old_: seq<Slot>, s: State)
      requires index < |old_| && data.partSize > 0 && meta.partSize > 0
      reads thread
    {
      var d := old_[index];
      var n := SectorLength(|d.item|);
      |bytes| <= n &&
      var u := s.cache[KeyAt(meta.name, meta.partSize, RECORD * index) := CacheData(true, Build(d.(item := bytes).Cell()))];
      && thread.cache == u[KeyAt(data.name, data.partSize, d.start) := CacheData(true, Sector(bytes, n))]
      && thread.cachePriority == s.cachePriority && thread.cacheSize == s.cacheSize
    }

    /** setBytes: in the old sector if the new data needs no longer one, otherwise in a new sector. */
    method SetBytes(index: nat, bytes: seq<byte>) returns (ok: bool, hung: bool)
      requires Valid() && |bytes| <= MAX_LENGTH && SectorLength(|bytes|) <= data.partSize
      requires data.sumFilesSize + SectorLength(|bytes|) < TWO_63
      modifies this, thread, data, meta
      ensures hung ==> thread.Stuck() && index < old(|slots|)
      ensures Spins(old(Excess()), hung) && (index < old(|slots|) && old(SpinsAtRecord(index)) ==> hung)
      ensures !hung ==> ok == (index < old(|slots|))
      ensures index >= old(|slots|) ==> Valid() && slots == old(slots) && Excess() == old(Excess()) && data.sumFilesSize == old(data.sumFilesSize)
      ensures !hung && index < old(|slots|) && !Moves(old(slots)[index], bytes) ==>
        SetDone(index, bytes, old(slots), old(data.sumFilesSize), old(Excess()), old(room))
      ensures !hung && index < old(|slots|) && Moves(old(slots)[index], bytes) ==>
        WasSet(index, bytes, old(slots), old(data.sumFilesSize)) && Excess() <= old(Excess())
      ensures index < old(|slots|) && !Moves(old(slots)[index], bytes) ==>
        forall k :: k in thread.cache && k.file.name == data.name ==>
          k in old(thread.cache) || k in DataKeys(Files(), old(slots)[index].start, SectorLength(|old(slots)[index].item|))
      ensures index < old(|slots|) && !Moves(old(slots)[index], bytes) && old(InReach(index)) ==>
        !hung && DirectSet(index, bytes, old(slots), old(thread.Now()))
    {
      ok := false;
      var cell;
      cell, hung := GetMeta(index);
      if hung || cell == None { return; }
      ok := true;
      LengthsFit(index, bytes);
      var lastSectorLength := GetSectorLength(cell.value.length);
      var newSectorLength := GetSectorLength(|bytes|);
      if newSectorLength > lastSectorLength {
        hung := SetInNewSector(index, bytes, newSectorLength);
      } else {
        hung := SetInOldSector(index, cell.value, bytes, lastSectorLength);
      }
    }

    lemma {:induction false} LengthsFit(index: nat, bytes: seq<byte>)
      requires Valid() && index < |slots|
      ensures |slots[index].item| <= MAX_LENGTH && SectorLength(|bytes|) >= 1
      ensures InReach(index) ==> MetaKeys(Files(), index) == {KeyAt(meta.name, meta.partSize, RECORD * index)}
    {
      assert SlotOk(thread.Now(), room, Files(), data.sumFilesSize, index, slots[index]);
      SectorIsLeast(|bytes|, 0);
    }

    // ---------------------------------------------------------------- adding

    /** meta.add, which numbers the records. */
    method AddRecord(c: MetaCell) returns (index: nat, hung: bool)
      requires FilesValid() && meta.partSize >= RECORD && Sound(thread.Now(), room)
      requires meta.sumFilesSize == RECORD * |slots| && RoomIs(room, meta.name, meta.partSize, meta.sumFilesSize, RECORD)
      modifies thread, meta
      ensures hung ==> thread.Stuck() && old(Excess()) + RECORD > thread.maxCacheSize
      ensures FilesValid() && Sound(thread.Now(), room) && index == |slots| && meta.sumFilesSize == RECORD * |slots| + RECORD
      ensures !hung ==> IsWrittenAt(old(thread.Now()), thread.Now(), room, meta.name, meta.partSize, RECORD * |slots|, Build(c))
      ensures !hung ==> Excess() <= old(Excess())
      ensures (RECORD <= Fit(meta.partSize, RECORD * |slots|) && Easy(old(thread.Now()), KeyAt(meta.name, meta.partSize, RECORD * |slots|), RECORD, thread.maxCacheSize)) ==>
        !hung && Direct(old(thread.Now()), thread.Now(), KeyAt(meta.name, meta.partSize, RECORD * |slots|), Build(c))
    {
      RoomWithin(room, meta.name, meta.partSize, RECORD * |slots|, RECORD, RECORD);
      var start;
      start, hung := meta.Add(thread, Build(c), room);
      index := start / RECORD;
    }

    /** addBytes. An empty string gets no sector, and a record that says that it starts at 0. */
    method AddBytes(bytes: seq<byte>) returns (index: nat, hung: bool)
      requires Valid() && |bytes| <= MAX_LENGTH && SectorLength(|bytes|) <= data.partSize
      requires data.sumFilesSize + SectorLength(|bytes|) < TWO_63
      modifies this, thread, data, meta
      ensures hung ==> thread.Stuck()
      ensures Spins(old(Excess()), hung)
      ensures index == old(|slots|)
      ensures !hung ==> Valid() && slots == old(slots) + [Added(bytes, old(data.sumFilesSize))] && Excess() <= old(Excess())
      ensures !hung ==> data.sumFilesSize == old(data.sumFilesSize) + Added(bytes, old(data.sumFilesSize)).alloc
      ensures bytes != [] && old(SureToSpin(SectorLength(|bytes|))) ==> hung
      ensures bytes != [] && old(EasyToAdd(SectorLength(|bytes|))) ==> !hung && DirectAdd(bytes, old(data.sumFilesSize), old(|slots|), old(thread.Now()))
    {
      GrowMeta();
      if bytes != [] {
        index, hung := AddNonEmpty(bytes);
      } else {
        ghost var s := thread.Now();
        index, hung := AddRecord(MetaCell(0, 0));
        if !hung {
          EmptyAdded(s, thread.Now(), room, Files(), data.sumFilesSize, slots);
          Remember(slots + [Slot(0, 0, [])]);
        }
      }
    }

    method AddNonEmpty(bytes: seq<byte>) returns (index: nat, hung: bool)
      requires InOrder(meta.sumFilesSize + RECORD) && meta.sumFilesSize == RECORD * |slots|
      requires RoomIs(room, meta.name, meta.partSize, meta.sumFilesSize, RECORD)
      requires 0 < |bytes| <= MAX_LENGTH && SectorLength(|bytes|) <= data.partSize
      requires data.sumFilesSize + SectorLength(|bytes|) < TWO_63
      modifies this, thread, data, meta
      ensures hung ==> thread.Stuck()
      ensures Spins(old(Excess()), hung)
      ensures index == old(|slots|)
      ensures !hung ==> Valid() && slots == old(slots) + [Added(bytes, old(data.sumFilesSize))] && Excess() <= old(Excess())
      ensures !hung ==> data.sumFilesSize == old(data.sumFilesSize) + SectorLength(|bytes|)
      ensures old(SureToSpin(SectorLength(|bytes|))) ==> hung
      ensures old(EasyToAdd(SectorLength(|bytes|))) ==> !hung && DirectAdd(bytes, old(data.sumFilesSize), old(|slots|), old(thread.Now()))
    {
      ghost var s := thread.Now();
      var n := GetSectorLength(|bytes|);
      var start, hungFirst := AddSector(bytes, n, meta.sumFilesSize + RECORD);
      if hungFirst { return meta.sumFilesSize / RECORD, true; }
      index, hung := RecordSector(Slot(start, n, bytes), s);
    }

    method RecordSector(d: Slot, ghost s: State) returns (index: nat, hung: bool)
      requires SectorWaits(s, meta.sumFilesSize + RECORD, d) && meta.sumFilesSize == RECORD * |slots|
      requires RoomIs(room, meta.name, meta.partSize, meta.sumFilesSize, RECORD)
      modifies this, thread, meta
      ensures hung ==> thread.Stuck()
      ensures Spins(old(Excess()), hung)
      ensures index == old(|slots|)
      ensures !hung ==> Valid() && slots == old(slots) + [d] && Excess() <= old(Excess())
      ensures (RECORD <= Fit(meta.partSize, RECORD * old(|slots|)) && Easy(old(thread.Now()), KeyAt(meta.name, meta.partSize, RECORD * old(|slots|)), RECORD, thread.maxCacheSize)) ==>
        !hung && Direct(old(thread.Now()), thread.Now(), KeyAt(meta.name, meta.partSize, RECORD * old(|slots|)), Build(d.Cell()))
    {
      hide Bounded, IsWrittenAt, SectorLength, Total, SlotOk, Build, Sector;
      ghost var u, i := thread.Now(), |slots|;
      index, hung := AddRecord(d.Cell());
      if hung { return; }
      NewSlotStored(s, u, thread.Now(), room, Files(), d.start, slots, i, d);
      Remember(Put(slots, i, d));
    }

    /** The first piece of a new sector is not cached, and with the excess it is beyond the limit. */
    ghost predicate SureToSpin(n: nat)
      requires Sound(thread.Now(), room) && data.partSize > 0
      reads `room, thread, data
    {
      && Excess() > 0 && KeyAt(data.name, data.partSize, data.sumFilesSize) !in thread.cache
      && Excess() + FirstPiece(data.partSize, data.sumFilesSize, n) > thread.maxCacheSize
    }

    /** Sector and record are in one part each, not cached, and the cache has room for both. */
    ghost predicate EasyToAdd(n: nat)
      requires data.partSize > 0 && meta.partSize > 0
      reads `slots, thread, data, meta
    {
      && n <= Fit(data.partSize, data.sumFilesSize) && RECORD <= Fit(meta.partSize, RECORD * |slots|)
      && KeyAt(data.name, data.partSize, data.sumFilesSize) !in thread.cache
      && KeyAt(meta.name, meta.partSize, RECORD * |slots|) !in thread.cache
      && thread.cacheSize + n + RECORD <= thread.maxCacheSize
    }

    ghost predicate DirectAdd(bytes: seq<byte>, start: nat, index: nat, s: State)
      requires data.partSize > 0 && meta.partSize > 0
      reads thread
    {
      var n, dk, mk := SectorLength(|bytes|), KeyAt(data.name, data.partSize, start), KeyAt(meta.name, meta.partSize, RECORD * index);
      && |bytes| <= n
      && thread.cache == s.cache[dk := CacheData(true, Sector(bytes, n))][mk := CacheData(true, Build(MetaCell(start, |bytes|)))]
      && thread.cachePriority == s.cachePriority + [dk] + [mk] && thread.cacheSize == s.cacheSize + n + RECORD
    }
  }
}
