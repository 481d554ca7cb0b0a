/** Sectors and records of an InfinityStringArray of simpledb, and what reads and writes of them do. */
module Sectors {
  import opened Bytes
  import opened Seqs
  import opened Cache
  import opened PartFile

  // ------------------------------------------------------------------ sectors

  /** `size`, doubled until it is at least n. */
  function Doubled(size: nat, n: nat): nat
    requires size > 0
    decreases n - size
  {
    if size < n then Doubled(2 * size, n) else size
  }

  function SectorLength(n: nat): nat {
    Doubled(1, n)
  }

  lemma {:induction false} DoubledIsLeast(i: nat, n: nat, k: nat)
    requires i == 0 || Pow2(i - 1) < n
    ensures Doubled(Pow2(i), n) >= n && exists j :: j >= i && Doubled(Pow2(i), n) == Pow2(j)
    ensures Pow2(k) >= n ==> Doubled(Pow2(i), n) <= Pow2(k)
    decreases n - Pow2(i)
  {
    if Pow2(i) < n {
      assert Pow2(i + 1) == 2 * Pow2(i);
      DoubledIsLeast(i + 1, n, k);
    } else {
      assert Doubled(Pow2(i), n) == Pow2(i);
      if k < i { PowersGrow(k, i - 1); } else { PowersGrow(i, k); }
    }
  }

  lemma {:induction false} PowersMultiply(i: nat, j: nat)
    ensures Pow2(i + j) == Pow2(i) * Pow2(j)
    decreases i
  {
    if i > 0 {
      PowersMultiply(i - 1, j);
      assert Pow2(i + j) == 2 * Pow2(i - 1 + j);
      assert 2 * (Pow2(i - 1) * Pow2(j)) == 2 * Pow2(i - 1) * Pow2(j);
    }
  }

  lemma {:induction false} PowersGrow(i: nat, j: nat)
    requires i <= j
    ensures Pow2(i) <= Pow2(j)
    decreases j
  {
    if i < j { PowersGrow(i, j - 1); }
  }

  /** The sector length is the least power of two that is no less than n. */
  lemma {:induction false} SectorIsLeast(n: nat, k: nat)
    ensures SectorLength(n) >= n && SectorLength(n) > 0 && exists j :: SectorLength(n) == Pow2(j)
    ensures Pow2(k) >= n ==> SectorLength(n) <= Pow2(k)
  {
    assert Pow2(0) == 1;
    DoubledIsLeast(0, n, k);
    var j :| j >= 0 && Doubled(Pow2(0), n) == Pow2(j);
  }

  // ------------------------------------------------------------------ records

  /** MetaCell; a record of 24 bytes of which the last 8 are not used. */
  datatype MetaCell = MetaCell(start: nat, length: nat)

  const RECORD: nat := 24

  /** Beyond this the doubling of an int in getSectorLength overflows. */
  const MAX_LENGTH: nat := 0x4000_0000

  function Build(c: MetaCell): (r: seq<byte>)
    ensures |r| == RECORD
  {
    BigEndian(c.start, 8) + BigEndian(c.length, 8) + BigEndian(0, 8)
  }

  function Parse(r: seq<byte>): MetaCell
    requires |r| == RECORD
  {
    MetaCell(Value(r[0..8]), Value(r[8..16]))
  }

  lemma {:induction false} ParseBuild(c: MetaCell)
    requires c.start < TWO_63 && c.length < TWO_63
    ensures Parse(Build(c)) == c
  {
    var a, b, z := BigEndian(c.start, 8), BigEndian(c.length, 8), BigEndian(0, 8);
    FirstTwo(a, b, z);
    LongBack(c.start);
    LongBack(c.length);
  }

  lemma FirstTwo(a: seq<byte>, b: seq<byte>, z: seq<byte>)
    requires |a| == |b| == |z| == 8
    ensures (a + b + z)[0..8] == a && (a + b + z)[8..16] == b
  {}

  lemma {:induction false} LongBack(v: nat)
    requires v < TWO_63
    ensures Value(BigEndian(v, 8)) == v
  {
    ValueOfBigEndian(v, 8);
    Pow256Of8();
  }

  lemma {:induction false} Pow256Of8()
    ensures Pow256(8) == TWO_64
  {
    assert Pow256(4) == 0x1_0000_0000;
  }

  // ------------------------------------------------------------------ what the files hold

  /** The two files of an array, as far as the invariant speaks of them. */
  datatype Layout = Layout(data: nat, meta: nat, partSize: nat)

  /**
   * Where an item is and what it is: `alloc` bytes from `start` on were set aside for it. An empty
   * string that was added has none, and its record says that it starts at 0.
   */
  datatype Slot = Slot(start: nat, alloc: nat, item: seq<byte>) {
    function Cell(): MetaCell {
      MetaCell(start, |item|)
    }
  }

  ghost predicate Placed(room: map<Key, nat>, f: Layout, sum: nat, d: Slot)
    requires f.partSize > 0
  {
    && d.start < TWO_63 && |d.item| <= MAX_LENGTH && SectorLength(|d.item|) <= d.alloc <= f.partSize
    && d.start + d.alloc <= sum && RoomIs(room, f.data, f.partSize, d.start, d.alloc)
  }

  ghost predicate MetaOk(s: State, room: map<Key, nat>, f: Layout, i: nat, c: MetaCell)
    requires f.partSize > 0
  {
    RoomIs(room, f.meta, f.partSize, RECORD * i, RECORD) && HoldsAt(s, f.meta, f.partSize, RECORD * i, Build(c))
  }

  ghost predicate DataOk(s: State, f: Layout, d: Slot)
    requires f.partSize > 0
  {
    HoldsAt(s, f.data, f.partSize, d.start, d.item)
  }

  ghost predicate SlotsApart(c: Slot, d: Slot) {
    c.alloc == 0 || d.alloc == 0 || c.start + c.alloc <= d.start || d.start + d.alloc <= c.start
  }

  ghost predicate SlotOk(s: State, room: map<Key, nat>, f: Layout, sum: nat, i: nat, d: Slot)
    requires f.partSize > 0
  {
    && MetaOk(s, room, f, i, d.Cell()) && DataOk(s, f, d)
    && (if d.alloc == 0 then d.start == 0 && d.item == [] else Placed(room, f, sum, d))
  }

  /** Every record and every byte string is where a reader looks for it, and no two were set the same bytes aside. */
  ghost predicate Represents(s: State, room: map<Key, nat>, f: Layout, sum: nat, slots: seq<Slot>) {
    && f.partSize >= RECORD && f.data != f.meta
    && (forall i {:trigger SlotOk(s, room, f, sum, i, slots[i])} :: 0 <= i < |slots| ==> SlotOk(s, room, f, sum, i, slots[i]))
    && (forall i, j :: 0 <= i < j < |slots| ==> SlotsApart(slots[i], slots[j]))
  }

  ghost function MetaKeys(f: Layout, i: nat): set<Key>
    requires f.partSize > 0
  {
    KeysOf(f.meta, f.partSize, RECORD * i, RECORD)
  }

  ghost function DataKeys(f: Layout, start: nat, n: nat): set<Key>
    requires f.partSize > 0
  {
    KeysOf(f.data, f.partSize, start, n)
  }

  lemma KeysOfShorter(name: nat, partSize: nat, start: nat, m: nat, n: nat)
    requires partSize > 0 && m <= n
    ensures KeysOf(name, partSize, start, m) <= KeysOf(name, partSize, start, n)
  {}

  /** The item of a slot that has a sector. */
  lemma {:induction false} InSector(room: map<Key, nat>, f: Layout, sum: nat, d: Slot)
    requires f.partSize > 0 && Placed(room, f, sum, d)
    ensures |d.item| <= SectorLength(|d.item|) <= d.alloc && d.alloc > 0
    ensures RoomFor(room, f.data, f.partSize, d.start, |d.item|) && DataKeys(f, d.start, |d.item|) <= DataKeys(f, d.start, d.alloc)
  {
    SectorIsLeast(|d.item|, 0);
    RoomWithin(room, f.data, f.partSize, d.start, |d.item|, d.alloc);
  }

  lemma {:induction false} MetasApart(f: Layout, i: nat, j: nat)
    requires f.partSize >= RECORD && i != j
    ensures MetaKeys(f, i) !! MetaKeys(f, j)
  {
    KeysApart(f.partSize, f.meta, RECORD * i, RECORD, f.meta, RECORD * j, RECORD);
  }

  lemma MetaApartFromData(f: Layout, i: nat, start: nat, n: nat)
    requires f.partSize >= RECORD && f.data != f.meta
    ensures MetaKeys(f, i) !! DataKeys(f, start, n)
  {}

  lemma MoreExcept(s: State, t: State, room: map<Key, nat>, e: set<Key>, e': set<Key>)
    requires Keeps(s, t, room, e) && e <= e'
    ensures Keeps(s, t, room, e')
  {}

  lemma {:induction false} MetaKept(s: State, t: State, room: map<Key, nat>, f: Layout, e: set<Key>, i: nat, c: MetaCell)
    requires f.partSize > 0 && Keeps(s, t, room, e) && MetaOk(s, room, f, i, c) && MetaKeys(f, i) !! e
    ensures MetaOk(t, room, f, i, c)
  {
    RoomWithin(room, f.meta, f.partSize, RECORD * i, RECORD, RECORD);
    RangeKept(s, t, room, e, f.meta, f.partSize, RECORD * i, Build(c));
  }

  lemma {:induction false} DataKept(s: State, t: State, room: map<Key, nat>, f: Layout, sum: nat, e: set<Key>, d: Slot)
    requires f.partSize > 0 && Keeps(s, t, room, e) && DataOk(s, f, d)
    requires d.item != [] ==> Placed(room, f, sum, d) && DataKeys(f, d.start, |d.item|) !! e
    ensures DataOk(t, f, d)
  {
    if d.item != [] {
      InSector(room, f, sum, d);
      RangeKept(s, t, room, e, f.data, f.partSize, d.start, d.item);
    }
  }

  /** A slot whose record and item were not touched. */
  lemma {:induction false} SlotKept(s: State, t: State, room: map<Key, nat>, f: Layout, sum: nat, e: set<Key>, i: nat, d: Slot)
    requires f.partSize > 0 && Keeps(s, t, room, e) && SlotOk(s, room, f, sum, i, d) && MetaKeys(f, i) !! e
    requires d.item != [] ==> DataKeys(f, d.start, |d.item|) !! e
    ensures SlotOk(t, room, f, sum, i, d)
  {
    MetaKept(s, t, room, f, e, i, d.Cell());
    DataKept(s, t, room, f, sum, e, d);
  }

  /** A slot beside the record i and the n bytes from `start` on. */
  lemma {:induction false} SlotBeside(s: State, t: State, room: map<Key, nat>, f: Layout, sum: nat, i: nat, start: nat, n: nat, j: nat, d: Slot)
    requires f.partSize >= RECORD && f.data != f.meta && j != i && 0 < n <= f.partSize
    requires Keeps(s, t, room, MetaKeys(f, i) + DataKeys(f, start, n)) && SlotOk(s, room, f, sum, j, d)
    requires d.alloc == 0 || start + n <= d.start || d.start + d.alloc <= start
    ensures SlotOk(t, room, f, sum, j, d)
  {
    MetasApart(f, i, j);
    MetaApartFromData(f, j, start, n);
    if d.alloc > 0 {
      InSector(room, f, sum, d);
      MetaApartFromData(f, i, d.start, |d.item|);
      KeysApart(f.partSize, f.data, start, n, f.data, d.start, d.alloc);
    }
    SlotKept(s, t, room, f, sum, MetaKeys(f, i) + DataKeys(f, start, n), j, d);
  }

  function Put<T>(q: seq<T>, i: nat, x: T): seq<T>
    requires i <= |q|
  {
    if i < |q| then q[i := x] else q + [x]
  }

  /** Slot i, which may be new, has been stored in the n bytes from d.start on. */
  lemma {:induction false} PutRepresents(s: State, t: State, room: map<Key, nat>, f: Layout, sum: nat, sum': nat, slots: seq<Slot>, i: nat, d: Slot, n: nat)
    requires Represents(s, room, f, sum, slots) && i <= |slots| && sum <= sum'
    requires SlotOk(t, room, f, sum', i, d) && d.alloc <= n && 0 < n <= f.partSize
    requires Keeps(s, t, room, MetaKeys(f, i) + DataKeys(f, d.start, n))
    requires forall j :: 0 <= j < |slots| && j != i ==>
      slots[j].alloc == 0 || d.start + n <= slots[j].start || slots[j].start + slots[j].alloc <= d.start
    ensures Represents(t, room, f, sum', Put(slots, i, d))
  {
    var slots' := Put(slots, i, d);
    forall j | 0 <= j < |slots'| ensures SlotOk(t, room, f, sum', j, slots'[j]) {
      if j != i {
        assert SlotOk(s, room, f, sum, j, slots[j]);
        SlotBeside(s, t, room, f, sum, i, d.start, n, j, slots[j]);
      }
    }
    forall j, k | 0 <= j < k < |slots'| ensures SlotsApart(slots'[j], slots'[k]) {}
  }

  /** A record for an empty string has been added. */
  lemma {:induction false} EmptyAdded(s: State, t: State, room: map<Key, nat>, f: Layout, sum: nat, slots: seq<Slot>)
    requires Represents(s, room, f, sum, slots) && RoomIs(room, f.meta, f.partSize, RECORD * |slots|, RECORD)
    requires IsWrittenAt(s, t, room, f.meta, f.partSize, RECORD * |slots|, Build(MetaCell(0, 0)))
    ensures Represents(t, room, f, sum, slots + [Slot(0, 0, [])])
  {
    var i, d := |slots|, Slot(0, 0, []);
    forall j | 0 <= j <= i ensures SlotOk(t, room, f, sum, j, (slots + [d])[j]) {
      if j < i {
        assert SlotOk(s, room, f, sum, j, slots[j]);
        MetasApart(f, i, j);
        MetaApartFromData(f, i, slots[j].start, |slots[j].item|);
        SlotKept(s, t, room, f, sum, MetaKeys(f, i), j, slots[j]);
      }
    }
  }

  // ------------------------------------------------------------------ reads

  lemma {:induction false} RecordFits(s: State, room: map<Key, nat>, f: Layout, sum: nat, slots: seq<Slot>, i: nat)
    requires Represents(s, room, f, sum, slots)
    ensures i < |slots| ==> RoomFor(room, f.meta, f.partSize, RECORD * i, RECORD)
    ensures i < |slots| ==> KeysTouched(f.meta, f.partSize, RECORD * i, RECORD) == MetaKeys(f, i)
  {
    if i < |slots| {
      assert SlotOk(s, room, f, sum, i, slots[i]);
      RoomWithin(room, f.meta, f.partSize, RECORD * i, RECORD, RECORD);
    }
  }

  lemma {:induction false} RecordParses(s: State, room: map<Key, nat>, f: Layout, sum: nat, slots: seq<Slot>, i: nat)
    requires Represents(s, room, f, sum, slots) && i < |slots|
    ensures Parse(Build(slots[i].Cell())) == slots[i].Cell()
  {
    assert SlotOk(s, room, f, sum, i, slots[i]);
    ParseBuild(slots[i].Cell());
  }

  lemma {:induction false} MetaReadKeeps(s: State, t: State, room: map<Key, nat>, f: Layout, sum: nat, slots: seq<Slot>, i: nat, bytes: seq<byte>)
    requires Represents(s, room, f, sum, slots) && i < |slots|
    requires IsRead(s, t, room, f.meta, f.partSize, RECORD * i, RECORD, bytes)
    ensures bytes == Build(slots[i].Cell()) && Represents(t, room, f, sum, slots)
  {
    var e := MetaKeys(f, i);
    assert KeysTouched(f.meta, f.partSize, RECORD * i, RECORD) == e;
    forall j | 0 <= j < |slots| ensures SlotOk(t, room, f, sum, j, slots[j]) {
      assert SlotOk(s, room, f, sum, j, slots[j]);
      MetaApartFromData(f, i, slots[j].start, |slots[j].item|);
      if j == i { DataKept(s, t, room, f, sum, e, slots[i]); }
      else { MetasApart(f, i, j); SlotKept(s, t, room, f, sum, e, j, slots[j]); }
    }
    assert SlotOk(s, room, f, sum, i, slots[i]);
  }

  /** Items of other slots lie elsewhere. */
  lemma {:induction false} ItemsApart(room: map<Key, nat>, f: Layout, sum: nat, c: Slot, d: Slot)
    requires f.partSize > 0 && Placed(room, f, sum, c) && Placed(room, f, sum, d) && SlotsApart(c, d)
    ensures DataKeys(f, c.start, |c.item|) !! DataKeys(f, d.start, |d.item|)
  {
    InSector(room, f, sum, c);
    InSector(room, f, sum, d);
    KeysApart(f.partSize, f.data, c.start, c.alloc, f.data, d.start, d.alloc);
  }

  /** Reading the item may leave an empty entry in the cache where another item is. */
  predicate Risky(partSize: nat, d: Slot)
    requires partSize > 0
  {
    d.item == [] && (d.alloc == 0 || Corner(partSize, d.start, 0))
  }

  lemma {:induction false} DataReadKeeps(s: State, t: State, room: map<Key, nat>, f: Layout, sum: nat, slots: seq<Slot>, i: nat, bytes: seq<byte>)
    requires Represents(s, room, f, sum, slots) && i < |slots| && !Risky(f.partSize, slots[i])
    requires IsRead(s, t, room, f.data, f.partSize, slots[i].start, |slots[i].item|, bytes)
    ensures bytes == slots[i].item && Represents(t, room, f, sum, slots)
  {
    var c := slots[i];
    var e := DataKeys(f, c.start, |c.item|);
    assert SlotOk(s, room, f, sum, i, c);
    assert KeysTouched(f.data, f.partSize, c.start, |c.item|) == e;
    forall j | 0 <= j < |slots| ensures SlotOk(t, room, f, sum, j, slots[j]) {
      assert SlotOk(s, room, f, sum, j, slots[j]);
      MetaApartFromData(f, j, c.start, |c.item|);
      if j == i { MetaKept(s, t, room, f, e, i, c.Cell()); }
      else {
        assert if i < j then SlotsApart(slots[i], slots[j]) else SlotsApart(slots[j], slots[i]);
        if slots[j].alloc > 0 { ItemsApart(room, f, sum, c, slots[j]); }
        SlotKept(s, t, room, f, sum, e, j, slots[j]);
      }
    }
  }

  /** The item of d has bytes at the offset k. */
  ghost predicate Victim(f: Layout, k: Key, d: Slot)
    requires f.partSize > 0
  {
    d.item != [] && k in DataKeys(f, d.start, |d.item|)
  }

  ghost predicate NoVictim(f: Layout, k: Key, slots: seq<Slot>)
    requires f.partSize > 0
  {
    forall j :: 0 <= j < |slots| ==> !Victim(f, k, slots[j])
  }

  /** What is left when an empty entry may hide what is at k: everything else, and all if k still holds something. */
  ghost predicate LeftOver(t: State, room: map<Key, nat>, f: Layout, sum: nat, slots: seq<Slot>, k: Key)
    requires f.partSize > 0
  {
    && k in t.cache
    && (forall j {:trigger slots[j]} :: 0 <= j < |slots| ==>
          if Victim(f, k, slots[j]) && t.cache[k].data == [] then !DataOk(t, f, slots[j]) && MetaOk(t, room, f, j, slots[j].Cell())
          else SlotOk(t, room, f, sum, j, slots[j]))
  }

  /** A risky read: an item is lost exactly if it has bytes where the entry that was left is empty. */
  lemma {:induction false} RiskyReadLoses(s: State, t: State, room: map<Key, nat>, f: Layout, sum: nat, slots: seq<Slot>, i: nat, bytes: seq<byte>)
    requires Represents(s, room, f, sum, slots) && i < |slots| && Risky(f.partSize, slots[i])
    requires IsRead(s, t, room, f.data, f.partSize, slots[i].start, 0, bytes)
    ensures bytes == slots[i].item && LeftOver(t, room, f, sum, slots, ProbeKey(f.data, f.partSize, slots[i].start))
  {
    var c, k := slots[i], ProbeKey(f.data, f.partSize, slots[i].start);
    assert SlotOk(s, room, f, sum, i, c);
    forall j | 0 <= j < |slots|
      ensures if Victim(f, k, slots[j]) && t.cache[k].data == [] then !DataOk(t, f, slots[j]) && MetaOk(t, room, f, j, slots[j].Cell())
              else SlotOk(t, room, f, sum, j, slots[j])
    {
      assert SlotOk(s, room, f, sum, j, slots[j]);
      RiskyReadOne(s, t, room, f, sum, c, j, slots[j], i == j || (if i < j then SlotsApart(slots[i], slots[j]) else SlotsApart(slots[j], slots[i])));
    }
  }

  lemma {:induction false} RiskyReadOne(s: State, t: State, room: map<Key, nat>, f: Layout, sum: nat, c: Slot, j: nat, d: Slot, apart: bool)
    requires f.partSize >= RECORD && f.data != f.meta && Risky(f.partSize, c) && SlotOk(s, room, f, sum, j, d)
    requires if c.alloc == 0 then c.start == 0 else Placed(room, f, sum, c)
    requires apart && (c == d || SlotsApart(c, d))
    requires Probed(s, t, room, {KeyAt(f.data, f.partSize, c.start)}, ProbeKey(f.data, f.partSize, c.start))
    ensures var k := ProbeKey(f.data, f.partSize, c.start);
      if Victim(f, k, d) && t.cache[k].data == [] then !DataOk(t, f, d) && MetaOk(t, room, f, j, d.Cell()) else SlotOk(t, room, f, sum, j, d)
  {
    var first, k := KeyAt(f.data, f.partSize, c.start), ProbeKey(f.data, f.partSize, c.start);
    MetaApartFromData(f, j, c.start, 0);
    MetaKept(s, t, room, f, {first} + {k}, j, d.Cell());
    if d.item != [] {
      InSector(room, f, sum, d);
      if c.alloc > 0 && first != k { ItemsApart(room, f, sum, c, d); }
      if k in DataKeys(f, d.start, |d.item|) { VictimRead(s, t, room, f, d, first, k); }
      else { DataKept(s, t, room, f, sum, {first} + {k}, d); }
    }
  }

  lemma {:induction false} VictimRead(s: State, t: State, room: map<Key, nat>, f: Layout, d: Slot, first: Key, k: Key)
    requires f.partSize > 0 && DataOk(s, f, d) && Victim(f, k, d) && Probed(s, t, room, {first}, k)
    requires RoomFor(room, f.data, f.partSize, d.start, |d.item|) && (first == k || first !in DataKeys(f, d.start, |d.item|))
    ensures DataOk(t, f, d) <==> t.cache[k].data != []
  {
    var fit, one, two := Fit(f.partSize, d.start), KeyAt(f.data, f.partSize, d.start), NextKey(f.data, f.partSize, d.start);
    if |d.item| <= fit {
      assert Holds(s, one, d.item);
    } else {
      var a, b := d.item[..fit], d.item[fit..];
      assert Holds(s, one, a) && Holds(s, two, b);
      if k == one { assert Holds(t, two, b); } else { assert Holds(t, one, a); }
    }
  }

  /** The first byte of the part that the offset k begins lies in the item. */
  lemma {:induction false} VictimCovers(f: Layout, d: Slot, q: nat)
    requires f.partSize > 0 && |d.item| <= f.partSize
    ensures Victim(f, Key(File(f.data, q), 0), d) <==> d.start <= q * f.partSize < d.start + |d.item|
  {
    var k, p := Key(File(f.data, q), 0), f.partSize;
    if Victim(f, k, d) { KeyInRange(p, f.data, d.start, |d.item|, k); }
    if d.start <= q * p < d.start + |d.item| {
      NextPart(q, d.start, |d.item|, p);
      DivMod(d.start, p);
      if d.start % p != 0 {} else { assert d.start == q * p; }
    }
  }

  lemma {:induction false} FlushedRepresents(s: State, t: State, room: map<Key, nat>, f: Layout, sum: nat, slots: seq<Slot>)
    requires Represents(s, room, f, sum, slots) && Keeps(s, t, room, {})
    ensures Represents(t, room, f, sum, slots)
  {
    forall i | 0 <= i < |slots| ensures SlotOk(t, room, f, sum, i, slots[i]) {
      assert SlotOk(s, room, f, sum, i, slots[i]);
      SlotKept(s, t, room, f, sum, {}, i, slots[i]);
    }
  }

  /** When no write is pending, everything is there for a new cache over the same files. */
  lemma {:induction false} Durable(s: State, room: map<Key, nat>, f: Layout, sum: nat, slots: seq<Slot>)
    requires Represents(s, room, f, sum, slots) && Sound(s, room) && s.writeSequences == []
    ensures Represents(State(map[], [], [], 0, s.disk), room, f, sum, slots)
  {
    var t := State(map[], [], [], 0, s.disk);
    forall k, b | k in room && |b| <= room[k] && Holds(s, k, b) ensures Holds(t, k, b) {
      if k in s.cache { assert EntryOk(s, room, k); assert s.cache[k].data[..|b|] == b; }
    }
    FlushedRepresents(s, t, room, f, sum, slots);
  }

  /** More room: new offsets, or room where there was none. */
  ghost predicate Wider(room: map<Key, nat>, more: map<Key, nat>, name: nat) {
    && (forall k :: k in room ==> k in more && (more[k] == room[k] || (room[k] == 0 && k.file.name == name)))
    && (forall k :: k in more && k !in room ==> k.file.name == name)
  }

  lemma {:induction false} StillBounded(room: map<Key, nat>, more: map<Key, nat>, name: nat, other: nat, partSize: nat, sum: nat)
    requires Bounded(room, other, partSize, sum) && name != other && Wider(room, more, name)
    ensures Bounded(more, other, partSize, sum)
  {
    forall p: nat | p * partSize < sum ensures Begun(more, other, p) { assert Begun(room, other, p); }
    forall k | k in more ensures Within(more, other, partSize, sum, k) {
      if k in room { assert Within(room, other, partSize, sum, k); }
    }
  }

  lemma {:induction false} MoreRoomRepresents(s: State, room: map<Key, nat>, more: map<Key, nat>, name: nat, f: Layout, sum: nat, slots: seq<Slot>)
    requires Represents(s, room, f, sum, slots) && Wider(room, more, name)
    ensures Represents(s, more, f, sum, slots)
  {
    forall i | 0 <= i < |slots| ensures SlotOk(s, more, f, sum, i, slots[i]) {
      assert SlotOk(s, room, f, sum, i, slots[i]);
      if slots[i].alloc > 0 { InSector(room, f, sum, slots[i]); }
    }
  }

  // ------------------------------------------------------------------ writes

  /** The data, followed by zeros. */
  function Sector(data: seq<byte>, n: nat): (s: seq<byte>)
    requires |data| <= n
    ensures |s| == n && s[..|data|] == data
  {
    data + seq<byte>(n - |data|, i => 0)
  }

  /** A sector has been written and a record has been written, in either order. */
  ghost predicate BothWritten(s: State, t: State, room: map<Key, nat>, f: Layout, i: nat, d: Slot, n: nat)
    requires f.partSize > 0
  {
    MetaOk(t, room, f, i, d.Cell()) && DataOk(t, f, d) && Keeps(s, t, room, MetaKeys(f, i) + DataKeys(f, d.start, n))
  }

  /** What the two writes of an item need. */
  ghost predicate CanWrite(room: map<Key, nat>, f: Layout, i: nat, d: Slot, n: nat) {
    && f.partSize >= RECORD && f.data != f.meta && |d.item| <= n && 0 < n <= f.partSize
    && RoomFor(room, f.data, f.partSize, d.start, n) && RoomIs(room, f.meta, f.partSize, RECORD * i, RECORD)
  }

  lemma {:induction false} SectorThenRecord(s: State, u: State, t: State, room: map<Key, nat>, f: Layout, i: nat, d: Slot, n: nat)
    requires CanWrite(room, f, i, d, n)
    requires IsWrittenAt(s, u, room, f.data, f.partSize, d.start, Sector(d.item, n))
    requires IsWrittenAt(u, t, room, f.meta, f.partSize, RECORD * i, Build(d.Cell()))
    ensures BothWritten(s, t, room, f, i, d, n)
  {
    var both, sector := MetaKeys(f, i) + DataKeys(f, d.start, n), Sector(d.item, n);
    MetaApartFromData(f, i, d.start, n);
    RangeKept(u, t, room, MetaKeys(f, i), f.data, f.partSize, d.start, sector);
    HeldPrefix(t, f.data, f.partSize, d.start, sector, |d.item|);
    MoreExcept(s, u, room, DataKeys(f, d.start, n), both);
    MoreExcept(u, t, room, MetaKeys(f, i), both);
    KeepsTwice(s, u, t, room, both);
  }

  lemma {:induction false} RecordThenSector(s: State, u: State, t: State, room: map<Key, nat>, f: Layout, i: nat, d: Slot, n: nat)
    requires CanWrite(room, f, i, d, n)
    requires IsWrittenAt(s, u, room, f.meta, f.partSize, RECORD * i, Build(d.Cell()))
    requires IsWrittenAt(u, t, room, f.data, f.partSize, d.start, Sector(d.item, n))
    ensures BothWritten(s, t, room, f, i, d, n)
  {
    var both, sector := MetaKeys(f, i) + DataKeys(f, d.start, n), Sector(d.item, n);
    MetaApartFromData(f, i, d.start, n);
    RoomWithin(room, f.meta, f.partSize, RECORD * i, RECORD, RECORD);
    RangeKept(u, t, room, DataKeys(f, d.start, n), f.meta, f.partSize, RECORD * i, Build(d.Cell()));
    HeldPrefix(t, f.data, f.partSize, d.start, sector, |d.item|);
    MoreExcept(s, u, room, MetaKeys(f, i), both);
    MoreExcept(u, t, room, DataKeys(f, d.start, n), both);
    KeepsTwice(s, u, t, room, both);
  }

  /** A slot at the end of the data file, behind all others. */
  lemma {:induction false} NewSlot(s: State, t: State, room: map<Key, nat>, f: Layout, sum: nat, slots: seq<Slot>, i: nat, d: Slot)
    requires Represents(s, room, f, sum, slots) && i <= |slots| && d.start == sum && d.alloc == SectorLength(|d.item|) <= f.partSize
    requires sum + d.alloc < TWO_63 && |d.item| <= MAX_LENGTH && RoomIs(room, f.data, f.partSize, sum, d.alloc)
    requires BothWritten(s, t, room, f, i, d, d.alloc)
    ensures Represents(t, room, f, sum + d.alloc, Put(slots, i, d))
  {
    SectorIsLeast(|d.item|, 0);
    forall j | 0 <= j < |slots| ensures slots[j].alloc == 0 || slots[j].start + slots[j].alloc <= sum {
      assert SlotOk(s, room, f, sum, j, slots[j]);
    }
    PutRepresents(s, t, room, f, sum, sum + d.alloc, slots, i, d, d.alloc);
  }

  /** The data has been written into a new sector, and then the record. */
  lemma {:induction false} NewSlotStored(s: State, u: State, t: State, room: map<Key, nat>, f: Layout, sum: nat, slots: seq<Slot>, i: nat, d: Slot)
    requires Represents(s, room, f, sum, slots) && i <= |slots| && d.start == sum && |d.item| <= d.alloc == SectorLength(|d.item|) <= f.partSize
    requires 0 < d.alloc && sum + d.alloc < TWO_63 && |d.item| <= MAX_LENGTH && RoomIs(room, f.data, f.partSize, sum, d.alloc)
    requires RoomIs(room, f.meta, f.partSize, RECORD * i, RECORD)
    requires IsWrittenAt(s, u, room, f.data, f.partSize, d.start, Sector(d.item, d.alloc))
    requires IsWrittenAt(u, t, room, f.meta, f.partSize, RECORD * i, Build(d.Cell()))
    ensures Represents(t, room, f, sum + d.alloc, Put(slots, i, d))
  {
    RoomWithin(room, f.data, f.partSize, sum, d.alloc, d.alloc);
    SectorThenRecord(s, u, t, room, f, i, d, d.alloc);
    NewSlot(s, t, room, f, sum, slots, i, d);
  }

  lemma {:induction false} OldSectorFits(s: State, room: map<Key, nat>, f: Layout, sum: nat, slots: seq<Slot>, i: nat, data: seq<byte>)
    requires Represents(s, room, f, sum, slots) && i < |slots| && SectorLength(|data|) <= SectorLength(|slots[i].item|) && slots[i].alloc > 0
    ensures var d, n := slots[i].(item := data), SectorLength(|slots[i].item|);
      && CanWrite(room, f, i, d, n) && d.start + n <= sum && n <= RoomOf(room, f.data, f.partSize, d.start, n) <= d.alloc
  {
    SectorIsLeast(|data|, 0);
    assert SlotOk(s, room, f, sum, i, slots[i]);
    InSector(room, f, sum, slots[i]);
    RoomWithin(room, f.data, f.partSize, slots[i].start, SectorLength(|slots[i].item|), slots[i].alloc);
  }

  /** Other data in the sector of a slot. */
  lemma {:induction false} OldSlot(s: State, t: State, room: map<Key, nat>, f: Layout, sum: nat, slots: seq<Slot>, i: nat, data: seq<byte>, n: nat)
    requires Represents(s, room, f, sum, slots) && i < |slots| && slots[i].alloc > 0 && |data| <= MAX_LENGTH
    requires SectorLength(|data|) <= n == SectorLength(|slots[i].item|) && BothWritten(s, t, room, f, i, slots[i].(item := data), n)
    ensures Represents(t, room, f, sum, slots[i := slots[i].(item := data)])
  {
    var d := slots[i];
    assert SlotOk(s, room, f, sum, i, d);
    InSector(room, f, sum, d);
    KeysOfShorter(f.data, f.partSize, d.start, n, d.alloc);
    MoreExcept(s, t, room, MetaKeys(f, i) + DataKeys(f, d.start, n), MetaKeys(f, i) + DataKeys(f, d.start, d.alloc));
    forall j | 0 <= j < |slots| && j != i
      ensures slots[j].alloc == 0 || d.start + d.alloc <= slots[j].start || slots[j].start + slots[j].alloc <= d.start {
      assert if i < j then SlotsApart(slots[i], slots[j]) else SlotsApart(slots[j], slots[i]);
    }
    PutRepresents(s, t, room, f, sum, sum, slots, i, d.(item := data), d.alloc);
  }

  /** A record that says 0, and one byte written there: what that leaves of slot j. */
  ghost predicate Overwritten(t: State, room: map<Key, nat>, f: Layout, sum: nat, j: nat, d: Slot, sector: seq<byte>)
    requires f.partSize > 0
  {
    && (d.alloc == 0 || d.start > 0 || d.item == [] || d.item == sector ==> SlotOk(t, room, f, sum, j, d))
    && (d.alloc > 0 && d.start == 0 && d.item != [] && d.item != sector ==> !DataOk(t, f, d))
  }

  lemma {:induction false} ClashLoses(s: State, t: State, room: map<Key, nat>, f: Layout, sum: nat, slots: seq<Slot>, i: nat, d: Slot)
    requires Represents(s, room, f, sum, slots) && i < |slots| && d.start == 0 && |d.item| <= 1
    requires BothWritten(s, t, room, f, i, d, 1) && KeyAt(f.data, f.partSize, 0) in t.cache
    requires t.cache[KeyAt(f.data, f.partSize, 0)].data == Sector(d.item, 1)
    ensures forall j :: 0 <= j < |slots| && j != i ==> Overwritten(t, room, f, sum, j, slots[j], Sector(d.item, 1))
  {
    forall j | 0 <= j < |slots| && j != i ensures Overwritten(t, room, f, sum, j, slots[j], Sector(d.item, 1)) {
      assert SlotOk(s, room, f, sum, j, slots[j]);
      ClashOne(s, t, room, f, sum, i, d, j, slots[j]);
    }
  }

  lemma {:induction false} ClashOne(s: State, t: State, room: map<Key, nat>, f: Layout, sum: nat, i: nat, d: Slot, j: nat, c: Slot)
    requires f.partSize >= RECORD && f.data != f.meta && SlotOk(s, room, f, sum, j, c) && j != i && d.start == 0 && |d.item| <= 1
    requires BothWritten(s, t, room, f, i, d, 1) && KeyAt(f.data, f.partSize, 0) in t.cache
    requires t.cache[KeyAt(f.data, f.partSize, 0)].data == Sector(d.item, 1)
    ensures Overwritten(t, room, f, sum, j, c, Sector(d.item, 1))
  {
    var e, k := MetaKeys(f, i) + DataKeys(f, 0, 1), KeyAt(f.data, f.partSize, 0);
    if c.alloc == 0 || c.start > 0 {
      SlotBeside(s, t, room, f, sum, i, 0, 1, j, c);
    } else {
      InSector(room, f, sum, c);
      MetasApart(f, i, j);
      MetaApartFromData(f, j, 0, 1);
      MetaKept(s, t, room, f, e, j, c.Cell());
      if c.item != [] && |c.item| <= f.partSize {
        assert DataOk(t, f, c) <==> Holds(t, k, c.item);
        if |c.item| == 1 { assert t.cache[k].data[..1] == t.cache[k].data; }
      }
    }
  }
}
