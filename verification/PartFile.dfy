/** InfinityFile of simpledb: a flat range of bytes that is cut into part files of one size. */
module PartFile {
  import opened Bytes
  import opened Seqs
  import opened Cache

  // ------------------------------------------------------------------ where a byte lives

  function KeyAt(name: nat, partSize: nat, start: nat): Key
    requires partSize > 0
  {
    Key(File(name, start / partSize), start % partSize)
  }

  /** The start of the part after the one that holds `start`. */
  function NextKey(name: nat, partSize: nat, start: nat): Key
    requires partSize > 0
  {
    Key(File(name, start / partSize + 1), 0)
  }

  /** How many bytes from `start` on are in the same part. */
  function Fit(partSize: nat, start: nat): (n: nat)
    requires partSize > 0
    ensures 0 < n <= partSize
  {
    partSize - start % partSize
  }

  ghost function KeysOf(name: nat, partSize: nat, start: nat, length: nat): set<Key>
    requires partSize > 0
  {
    if length <= Fit(partSize, start) then {KeyAt(name, partSize, start)}
    else {KeyAt(name, partSize, start), NextKey(name, partSize, start)}
  }

  /** The flat position of an offset in a part. */
  function Flat(partSize: nat, k: Key): nat {
    k.file.part * partSize + k.offset
  }

  /** Both offsets have room for a range. */
  ghost predicate RoomFor(room: map<Key, nat>, name: nat, partSize: nat, start: nat, length: nat)
    requires partSize > 0
  {
    var k, fit := KeyAt(name, partSize, start), Fit(partSize, start);
    && k in room && (if length <= fit then length <= room[k] else fit <= room[k])
    && (length > fit ==> NextKey(name, partSize, start) in room && length - fit <= room[NextKey(name, partSize, start)])
  }

  /** Exactly this range has been allocated: its one or two offsets have room for it and for no more. */
  ghost predicate RoomIs(room: map<Key, nat>, name: nat, partSize: nat, start: nat, length: nat)
    requires partSize > 0
  {
    var k, fit := KeyAt(name, partSize, start), Fit(partSize, start);
    && k in room && room[k] == (if length <= fit then length else fit)
    && (length > fit ==> NextKey(name, partSize, start) in room && room[NextKey(name, partSize, start)] == length - fit)
  }

  /** The room at the offsets that a range uses. */
  ghost function RoomOf(room: map<Key, nat>, name: nat, partSize: nat, start: nat, length: nat): nat
    requires partSize > 0 && RoomFor(room, name, partSize, start, length)
  {
    room[KeyAt(name, partSize, start)] + if length > Fit(partSize, start) then room[NextKey(name, partSize, start)] else 0
  }

  /** A range within an allocated one that begins with it. */
  lemma RoomWithin(room: map<Key, nat>, name: nat, partSize: nat, start: nat, length: nat, alloc: nat)
    requires partSize > 0 && length <= alloc && RoomIs(room, name, partSize, start, alloc)
    ensures RoomFor(room, name, partSize, start, length)
    ensures length <= RoomOf(room, name, partSize, start, length) <= alloc
  {}

  /** A reader of this range finds b there. */
  ghost predicate HoldsAt(s: State, name: nat, partSize: nat, start: nat, b: seq<byte>)
    requires partSize > 0
  {
    var fit := Fit(partSize, start);
    if |b| <= fit then Holds(s, KeyAt(name, partSize, start), b)
    else Holds(s, KeyAt(name, partSize, start), b[..fit]) && Holds(s, NextKey(name, partSize, start), b[fit..])
  }

  /** Extents of this file lie within their parts and below `sum`, and every part below `sum` starts one. */
  ghost predicate Bounded(room: map<Key, nat>, name: nat, partSize: nat, sum: nat) {
    && partSize > 0
    && (forall k {:trigger Within(room, name, partSize, sum, k)} :: k in room ==> Within(room, name, partSize, sum, k))
    && (forall p: nat {:trigger Begun(room, name, p)} :: p * partSize < sum ==> Begun(room, name, p))
  }

  ghost predicate Within(room: map<Key, nat>, name: nat, partSize: nat, sum: nat, k: Key)
    requires k in room
  {
    k.file.name == name ==>
      (0 < room[k] || sum == 0) && k.offset + room[k] <= partSize && Flat(partSize, k) + room[k] <= sum
  }

  ghost predicate Begun(room: map<Key, nat>, name: nat, p: nat) {
    Key(File(name, p), 0) in room
  }

  lemma DivMod(start: nat, partSize: nat)
    requires partSize > 0
    ensures start == start / partSize * partSize + start % partSize && start % partSize < partSize
  {}

  /** Where a range of at most one part size ends. */
  lemma {:induction false} EndOf(start: nat, length: nat, partSize: nat)
    requires partSize > 0 && length <= partSize
    ensures var q, r, end := start / partSize, start % partSize, start + length;
      && (r + length < partSize ==> end / partSize == q && end % partSize == r + length)
      && (r + length >= partSize ==> end / partSize == q + 1 && end % partSize == r + length - partSize)
  {
    DivMod(start, partSize);
    var q, r, end := start / partSize, start % partSize, start + length;
    if r + length < partSize {
      DivisionIsUnique(end, partSize, q, r + length);
    } else {
      assert (q + 1) * partSize == q * partSize + partSize;
      DivisionIsUnique(end, partSize, q + 1, r + length - partSize);
    }
  }

  /** No bytes at the start of a part that is not the first. */
  predicate Corner(partSize: nat, start: nat, length: nat)
    requires partSize > 0
  {
    length == 0 && start > 0 && start % partSize == 0
  }

  function CornerKey(name: nat, partSize: nat, start: nat): Key
    requires partSize > 0 && start / partSize > 0
  {
    Key(File(name, start / partSize - 1), 0)
  }

  ghost function KeysTouched(name: nat, partSize: nat, start: nat, length: nat): set<Key>
    requires partSize > 0
  {
    KeysOf(name, partSize, start, length) +
      if Corner(partSize, start, length) && start / partSize > 0 then {CornerKey(name, partSize, start)} else {}
  }

  /** Where a read of no bytes leaves an empty entry: at the range, or at the start of the part before. */
  function ProbeKey(name: nat, partSize: nat, start: nat): Key
    requires partSize > 0
  {
    if start / partSize > 0 && start % partSize == 0 then CornerKey(name, partSize, start) else KeyAt(name, partSize, start)
  }

  /**
   * No bytes have been read at k, after an access to the keys `first`. If k was cached then, it
   * still holds what it held; otherwise its entry is empty now, and hides what is on disk.
   */
  ghost predicate Probed(s: State, t: State, room: map<Key, nat>, first: set<Key>, k: Key) {
    && k in t.cache && Keeps(s, t, room, first + {k})
    && (k !in s.cache ==> t.cache[k].data == [])
    && (t.cache[k].data != [] ==> forall b {:trigger Holds(t, k, b)} :: k in room && |b| <= room[k] && Holds(s, k, b) ==> Holds(t, k, b))
  }

  /** What a read of a range does: it returns what is held there and keeps it, and it loses nothing elsewhere. */
  ghost predicate IsRead(s: State, t: State, room: map<Key, nat>, name: nat, partSize: nat, start: nat, length: nat, bytes: seq<byte>)
    requires partSize > 0
  {
    && |bytes| == length
    && (forall b {:trigger HoldsAt(t, name, partSize, start, b)} :: |b| == length && HoldsAt(s, name, partSize, start, b) ==>
          bytes == b && HoldsAt(t, name, partSize, start, b))
    && Keeps(s, t, room, KeysTouched(name, partSize, start, length))
    && (length == 0 ==> Probed(s, t, room, {KeyAt(name, partSize, start)}, ProbeKey(name, partSize, start)))
  }

  lemma {:induction false} ReadFromOne(s: State, t: State, room: map<Key, nat>, name: nat, partSize: nat, start: nat, bytes: seq<byte>)
    requires partSize > 0 && |bytes| <= Fit(partSize, start) && !Corner(partSize, start, |bytes|)
    requires IsKeyRead(s, t, room, KeyAt(name, partSize, start), bytes)
    ensures IsRead(s, t, room, name, partSize, start, |bytes|, bytes)
  {
    var k := KeyAt(name, partSize, start);
    assert KeysTouched(name, partSize, start, |bytes|) == {k};
    forall b | |b| == |bytes| && HoldsAt(s, name, partSize, start, b) ensures bytes == b && HoldsAt(t, name, partSize, start, b) {
      assert Holds(s, k, b);
    }
  }

  /** What Cache promises for one read. */
  ghost predicate IsKeyRead(s: State, t: State, room: map<Key, nat>, k: Key, bytes: seq<byte>) {
    && Keeps(s, t, room, {k})
    && (forall b {:trigger Holds(s, k, b)} :: |b| == |bytes| && Holds(s, k, b) ==> bytes == b)
    && (forall b {:trigger Holds(t, k, b)} :: Holds(s, k, b) ==> (Holds(t, k, b) <==> |b| <= |bytes| || k in s.cache))
    && (k in s.cache ==> s == t) && (forall j :: j in t.cache && j != k ==> j in s.cache)
    && k in t.cache && (k !in s.cache ==> |t.cache[k].data| == |bytes|)
  }

  lemma {:induction false} ReadFromTwo(s: State, u: State, t: State, room: map<Key, nat>, name: nat, partSize: nat, start: nat, length: nat,
                    a: seq<byte>, b: seq<byte>, second: Key)
    requires partSize > 0 && length <= partSize && length == |a| + |b| && second in room && RoomFor(room, name, partSize, start, length)
    requires var first := KeyAt(name, partSize, start);
      first != second && IsKeyRead(s, u, room, first, a) && IsKeyRead(u, t, room, second, b)
    requires if Corner(partSize, start, length) then start / partSize > 0 && second == CornerKey(name, partSize, start)
      else length > Fit(partSize, start) && |a| == Fit(partSize, start) && second == NextKey(name, partSize, start)
    ensures IsRead(s, t, room, name, partSize, start, length, a + b)
  {
    hide Fit;
    var first, fit := KeyAt(name, partSize, start), Fit(partSize, start);
    forall k, c | k in room && k != first && k != second && |c| <= room[k] && Holds(s, k, c) ensures Holds(t, k, c) {
      assert Holds(u, k, c);
    }
    if Corner(partSize, start, length) {
      CornerProbed(s, u, t, room, first, second, a, b);
    } else {
      forall c | |c| == length && HoldsAt(s, name, partSize, start, c) ensures a + b == c && HoldsAt(t, name, partSize, start, c) {
        assert Holds(s, first, c[..fit]) && Holds(s, second, c[fit..]);
        assert Holds(u, second, c[fit..]) && Holds(u, first, c[..fit]);
        assert Holds(t, second, c[fit..]) && Holds(t, first, c[..fit]);
        assert c == c[..fit] + c[fit..];
      }
    }
  }

  lemma {:induction false} CornerProbed(s: State, u: State, t: State, room: map<Key, nat>, first: Key, k: Key, a: seq<byte>, b: seq<byte>)
    requires first != k && k in room && IsKeyRead(s, u, room, first, a) && IsKeyRead(u, t, room, k, b) && b == []
    ensures Probed(s, t, room, {first}, k)
  {
    forall j, c | j in room && j != first && j != k && |c| <= room[j] && Holds(s, j, c) ensures Holds(t, j, c) {
      assert Holds(u, j, c);
    }
    if t.cache[k].data != [] {
      forall c | |c| <= room[k] && Holds(s, k, c) ensures Holds(t, k, c) { assert Holds(u, k, c); }
    }
  }

  /** What a write of a range does: the range holds the data, and nothing elsewhere is lost. */
  ghost predicate IsWrittenAt(s: State, t: State, room: map<Key, nat>, name: nat, partSize: nat, start: nat, data: seq<byte>)
    requires partSize > 0
  {
    && Keeps(s, t, room, KeysOf(name, partSize, start, |data|))
    && (data != [] ==> HoldsAt(t, name, partSize, start, data))
    && (0 < |data| <= Fit(partSize, start) ==>
          KeyAt(name, partSize, start) in t.cache && t.cache[KeyAt(name, partSize, start)].data == data)
  }

  lemma WrittenToOne(s: State, t: State, room: map<Key, nat>, name: nat, partSize: nat, start: nat, data: seq<byte>)
    requires partSize > 0 && |data| <= Fit(partSize, start) && Keeps(s, t, room, {KeyAt(name, partSize, start)})
    requires data != [] ==>
      Holds(t, KeyAt(name, partSize, start), data) && KeyAt(name, partSize, start) in t.cache && t.cache[KeyAt(name, partSize, start)].data == data
    ensures IsWrittenAt(s, t, room, name, partSize, start, data)
  {}

  lemma {:induction false} WrittenToTwo(s: State, u: State, t: State, room: map<Key, nat>, name: nat, partSize: nat, start: nat, data: seq<byte>)
    requires partSize > 0 && |data| <= partSize && RoomFor(room, name, partSize, start, |data|)
    requires if Corner(partSize, start, |data|) then s == u == t else
      && |data| > Fit(partSize, start)
      && Keeps(s, u, room, {KeyAt(name, partSize, start)}) && Holds(u, KeyAt(name, partSize, start), data[..Fit(partSize, start)])
      && Keeps(u, t, room, {NextKey(name, partSize, start)}) && Holds(t, NextKey(name, partSize, start), data[Fit(partSize, start)..])
    ensures IsWrittenAt(s, t, room, name, partSize, start, data)
  {
    var first, next := KeyAt(name, partSize, start), NextKey(name, partSize, start);
    forall k, b | k in room && k !in KeysOf(name, partSize, start, |data|) && |b| <= room[k] && Holds(s, k, b)
      ensures Holds(t, k, b)
    {
      assert Holds(u, k, b);
    }
  }

  lemma {:induction false} StartInPart(partSize: nat, start: nat)
    requires partSize > 0
    ensures start - start / partSize * partSize == start % partSize
  {
    DivMod(start, partSize);
  }

  /** A write that begins in the file ends in one of its parts or in the next one. */
  lemma {:induction false} ReachesAtMostOneMore(partSize: nat, start: nat, length: nat, sum: nat)
    requires partSize > 0 && length <= partSize && start <= sum && (start < sum ==> start + length <= sum)
    ensures start / partSize <= sum / partSize && (start + length) / partSize <= sum / partSize + 1
    ensures start < sum ==> (start + length) / partSize <= sum / partSize
    ensures start / partSize <= (start + length) / partSize
  {
    DivGrows(start, sum, partSize);
    EndOf(start, length, partSize);
    DivGrows(start, start + length, partSize);
    if start < sum { DivGrows(start + length, sum, partSize); }
  }

  /** A range below the end of the file begins and ends in parts that exist. */
  lemma {:induction false} PartsBelow(partSize: nat, start: nat, length: nat, sum: nat)
    requires partSize > 0 && start + length <= sum && length <= partSize
    ensures start / partSize <= sum / partSize
    ensures length > Fit(partSize, start) ==> start / partSize + 1 <= sum / partSize
  {
    DivGrows(start, sum, partSize);
    if length > Fit(partSize, start) {
      EndOf(start, Fit(partSize, start), partSize);
      DivGrows(start + Fit(partSize, start), sum, partSize);
    }
  }

  lemma {:induction false} DivGrows(a: nat, b: nat, m: nat)
    requires m > 0 && a <= b
    ensures a / m <= b / m
  {
    var q, p, r1, r2 := a / m, b / m, a % m, b % m;
    DivMod(a, m);
    DivMod(b, m);
    QuotientsGrow(q, r1, p, r2, m);
  }

  lemma {:induction false} QuotientsGrow(q: nat, r1: nat, p: nat, r2: nat, m: nat)
    requires q * m + r1 <= p * m + r2 && r2 < m
    ensures q <= p
  {
    ProductSign(q - p - 1, m);
    assert (q - p - 1) * m == q * m - p * m - m;
  }

  lemma ProductSign(d: int, m: nat)
    ensures d >= 0 ==> d * m >= 0
  {}

  lemma {:induction false} SecondKey(room: map<Key, nat>, name: nat, partSize: nat, sum: nat, start: nat, length: nat)
    requires Bounded(room, name, partSize, sum) && RoomFor(room, name, partSize, start, length) && start + length <= sum
    requires Corner(partSize, start, length) || length > Fit(partSize, start)
    ensures Corner(partSize, start, length) ==> start / partSize > 0 && CornerKey(name, partSize, start) in room
  {
    DivMod(start, partSize);
    var q := start / partSize;
    if q > 0 {
      assert (q - 1) * partSize == q * partSize - partSize;
      assert Begun(room, name, q - 1);
    }
  }

  lemma {:induction false} RangeKept(s: State, t: State, room: map<Key, nat>, except: set<Key>, name: nat, partSize: nat, start: nat, b: seq<byte>)
    requires partSize > 0 && Keeps(s, t, room, except) && RoomFor(room, name, partSize, start, |b|)
    requires KeysOf(name, partSize, start, |b|) !! except && HoldsAt(s, name, partSize, start, b)
    ensures HoldsAt(t, name, partSize, start, b)
  {
    var fit, k, next := Fit(partSize, start), KeyAt(name, partSize, start), NextKey(name, partSize, start);
    if |b| <= fit {
      assert Holds(s, k, b);
    } else {
      assert Holds(s, k, b[..fit]) && Holds(s, next, b[fit..]);
      assert next in KeysOf(name, partSize, start, |b|);
    }
    assert k in KeysOf(name, partSize, start, |b|);
  }

  /** A prefix of what is held is held. */
  lemma {:induction false} HeldPrefix(s: State, name: nat, partSize: nat, start: nat, b: seq<byte>, n: nat)
    requires partSize > 0 && HoldsAt(s, name, partSize, start, b) && n <= |b|
    ensures HoldsAt(s, name, partSize, start, b[..n])
  {
    var fit, k, next := Fit(partSize, start), KeyAt(name, partSize, start), NextKey(name, partSize, start);
    if |b| <= fit {
      KeyPrefix(s, k, b, n);
    } else if n <= fit {
      KeyPrefix(s, k, b[..fit], n);
      assert b[..fit][..n] == b[..n];
    } else {
      KeyPrefix(s, next, b[fit..], n - fit);
      assert b[fit..][..n - fit] == b[..n][fit..] && b[..n][..fit] == b[..fit];
    }
  }

  lemma {:induction false} KeyPrefix(s: State, k: Key, b: seq<byte>, n: nat)
    requires Holds(s, k, b) && n <= |b|
    ensures Holds(s, k, b[..n])
  {
    if k in s.cache {
      assert s.cache[k].data[..n] == s.cache[k].data[..|b|][..n];
    }
  }

  /** Ranges that do not overlap have no offset in common. */
  lemma {:induction false} KeysApart(partSize: nat, name1: nat, start1: nat, length1: nat, name2: nat, start2: nat, length2: nat)
    requires 0 < length1 <= partSize && 0 < length2 <= partSize
    requires name1 != name2 || start1 + length1 <= start2 || start2 + length2 <= start1
    ensures KeysOf(name1, partSize, start1, length1) !! KeysOf(name2, partSize, start2, length2)
  {
    forall k | k in KeysOf(name1, partSize, start1, length1) ensures k !in KeysOf(name2, partSize, start2, length2) {
      KeyInRange(partSize, name1, start1, length1, k);
      if k in KeysOf(name2, partSize, start2, length2) { KeyInRange(partSize, name2, start2, length2, k); }
    }
  }

  lemma {:induction false} KeyInRange(partSize: nat, name: nat, start: nat, length: nat, k: Key)
    requires 0 < length <= partSize && k in KeysOf(name, partSize, start, length)
    ensures k.file.name == name && start <= Flat(partSize, k) < start + length
  {
    DivMod(start, partSize);
    assert (start / partSize + 1) * partSize == start / partSize * partSize + partSize;
  }

  // ------------------------------------------------------------------ room at the end of the file

  ghost function MoreRoom(room: map<Key, nat>, name: nat, partSize: nat, start: nat, length: nat): map<Key, nat>
    requires partSize > 0
  {
    var fit := Fit(partSize, start);
    if length <= fit then room[KeyAt(name, partSize, start) := length]
    else room[KeyAt(name, partSize, start) := fit][NextKey(name, partSize, start) := length - fit]
  }

  /** No extent begins at or after the end of the file. */
  lemma {:induction false} NoneBeyond(room: map<Key, nat>, name: nat, partSize: nat, sum: nat, length: nat, k: Key)
    requires Bounded(room, name, partSize, sum) && 0 < length <= partSize && k in KeysOf(name, partSize, sum, length)
    ensures k in room ==> room[k] == 0
  {
    KeyInRange(partSize, name, sum, length, k);
    if k in room { assert Within(room, name, partSize, sum, k); }
  }

  lemma {:induction false} MoreRoomIsDisjoint(room: map<Key, nat>, name: nat, partSize: nat, sum: nat, length: nat)
    requires Disjoint(room) && Bounded(room, name, partSize, sum) && 0 < length <= partSize
    ensures Disjoint(MoreRoom(room, name, partSize, sum, length))
  {
    var more := MoreRoom(room, name, partSize, sum, length);
    forall j, k | j in more && k in more && j != k ensures RoomsApart(more, j, k) {
      MoreRoomEntry(room, name, partSize, sum, length, j);
      MoreRoomEntry(room, name, partSize, sum, length, k);
      if j in room && k in room { assert RoomsApart(room, j, k); }
    }
  }

  /** An offset is new, behind the old end, or has the room that it had, in front of it. */
  lemma {:induction false} MoreRoomEntry(room: map<Key, nat>, name: nat, partSize: nat, sum: nat, length: nat, k: Key)
    requires Bounded(room, name, partSize, sum) && 0 < length <= partSize && k in MoreRoom(room, name, partSize, sum, length)
    ensures var more := MoreRoom(room, name, partSize, sum, length);
      if k in KeysOf(name, partSize, sum, length) then k.file.name == name && sum <= Flat(partSize, k)
      else k in room && more[k] == room[k] && (k.file.name == name ==> Flat(partSize, k) + room[k] <= sum)
  {
    if k in KeysOf(name, partSize, sum, length) { KeyInRange(partSize, name, sum, length, k); }
    else { assert Within(room, name, partSize, sum, k); }
  }

  lemma {:induction false} MoreRoomIsBounded(room: map<Key, nat>, name: nat, partSize: nat, sum: nat, length: nat)
    requires Bounded(room, name, partSize, sum) && 0 < length <= partSize
    ensures Bounded(MoreRoom(room, name, partSize, sum, length), name, partSize, sum + length)
  {
    var more, q := MoreRoom(room, name, partSize, sum, length), sum / partSize;
    DivMod(sum, partSize);
    assert (q + 1) * partSize == q * partSize + partSize;
    forall k | k in more ensures Within(more, name, partSize, sum + length, k) {
      if k !in KeysOf(name, partSize, sum, length) {
        assert Within(room, name, partSize, sum, k);
        if sum == 0 && k.file.name == name { OnlyFirst(partSize, k); }
      }
    }
    forall p: nat | p * partSize < sum + length ensures Begun(more, name, p) {
      if p * partSize >= sum { NextPart(p, sum, length, partSize); } else { assert Begun(room, name, p); }
    }
  }

  lemma {:induction false} OnlyFirst(partSize: nat, k: Key)
    requires partSize > 0 && Flat(partSize, k) == 0
    ensures k.file.part == 0 && k.offset == 0
  {
    if k.file.part > 0 { ProductAtLeast(k.file.part, partSize); }
  }

  /** The only part that can begin in a range of at most one part size. */
  lemma {:induction false} NextPart(p: nat, sum: nat, length: nat, partSize: nat)
    requires partSize > 0 && sum <= p * partSize < sum + length && length <= partSize
    ensures if sum % partSize == 0 then p == sum / partSize else p == sum / partSize + 1 && length > Fit(partSize, sum)
  {
    var d := p * partSize - sum;
    DivisionIsUnique(p * partSize, partSize, p, 0);
    EndOf(sum, d, partSize);
    assert sum + d == p * partSize;
  }

  lemma {:induction false} MoreRoomKeeps(s: State, room: map<Key, nat>, name: nat, partSize: nat, sum: nat, length: nat)
    requires Sound(s, room) && Bounded(room, name, partSize, sum) && 0 < length <= partSize
    ensures var more := MoreRoom(room, name, partSize, sum, length);
      && Sound(s, more) && RoomIs(more, name, partSize, sum, length)
      && (forall k :: k in room ==> k in more && (more[k] == room[k] || (room[k] == 0 && k.file.name == name)))
      && (forall k :: k in more && k !in room ==> k.file.name == name)
  {
    var more := MoreRoom(room, name, partSize, sum, length);
    MoreRoomIsDisjoint(room, name, partSize, sum, length);
    forall k | k in room ensures more[k] == room[k] || (room[k] == 0 && k.file.name == name) {
      if k in KeysOf(name, partSize, sum, length) { NoneBeyond(room, name, partSize, sum, length, k); }
    }
    forall k | k in s.cache ensures EntryOk(s, more, k) { assert EntryOk(s, room, k); }
  }

  // ------------------------------------------------------------------ when the eviction loop spins

  /** How many bytes of a range are in the part in which it begins. */
  function FirstPiece(partSize: nat, start: nat, length: nat): nat
    requires partSize > 0
  {
    if length <= Fit(partSize, start) then length else Fit(partSize, start)
  }

  /** Reads keep the drift, so only a count that is too high for the longer piece makes them spin; then they do. */
  ghost predicate ReadHangs(s: State, name: nat, partSize: nat, start: nat, length: nat, max: int, hung: bool)
    requires partSize > 0 && forall k :: k in s.cachePriority ==> k in s.cache
  {
    && (hung ==> Drift(s) != 0 && Drift(s) + length > max)
    && (Drift(s) > 0 && KeyAt(name, partSize, start) !in s.cache && Drift(s) + FirstPiece(partSize, start, length) > max ==> hung)
    && (KeysTouched(name, partSize, start, length) <= s.cache.Keys ==> !hung)
  }

  /**
   * `room` is what there is room for at the offsets that are written, `piece` what is written at
   * the first of them. A write adds at most `room` less its own length to the drift.
   */
  ghost predicate WriteHangs(drift: int, room: nat, cached: bool, piece: nat, max: int, hung: bool) {
    && (hung ==> drift + room > max)
    && (drift > 0 && !cached && piece > 0 && drift + piece > max ==> hung)
  }

  // ------------------------------------------------------------------ the file

  /** The sizes of the parts of a file from number i on. */
  function SizeFrom(disk: map<File, seq<byte>>, name: nat, i: nat, parts: nat): nat
    requires i <= parts
    decreases parts - i
  {
    if i == parts then 0 else |FileOf(disk, File(name, i))| + SizeFrom(disk, name, i + 1, parts)
  }

  datatype ReadResult = Data(bytes: seq<byte>) | Null

  class InfinityFile {
    const name: nat
    const partSize: nat
    var files: seq<File>
    var sumFilesSize: nat

    constructor (name: nat, partSize: nat)
      requires partSize > 0
      ensures this.name == name && this.partSize == partSize && sumFilesSize == 0 && Valid()
    {
      this.name, this.partSize, files, sumFilesSize := name, partSize, [], 0;
    }

    /** The file whose first `parts` parts exist on disk; its size is the sum of theirs. */
    constructor Open(name: nat, partSize: nat, disk: map<File, seq<byte>>, parts: nat)
      requires partSize > 0 && (parts == SizeFrom(disk, name, 0, parts) / partSize + 1 || (parts == 0 && SizeFrom(disk, name, 0, parts) == 0))
      requires forall i :: 0 <= i < parts ==> File(name, i) in disk
      ensures this.name == name && this.partSize == partSize && sumFilesSize == SizeFrom(disk, name, 0, parts) && Valid()
    {
      this.name, this.partSize, files, sumFilesSize := name, partSize, [], 0;
      new;
      for i := 0 to parts
        invariant |files| == i && forall j :: 0 <= j < i ==> files[j] == File(name, j)
        invariant sumFilesSize + SizeFrom(disk, name, i, parts) == SizeFrom(disk, name, 0, parts)
      {
        files := files + [File(name, i)];
        sumFilesSize := sumFilesSize + |disk[File(name, i)]|;
      }
    }

    /** One part file for every part size that has been begun. */
    ghost predicate Valid()
      reads this
    {
      && partSize > 0 && (forall i :: 0 <= i < |files| ==> files[i] == File(name, i))
      && (|files| == sumFilesSize / partSize + 1 || (sumFilesSize == 0 && files == []))
    }

    method GetPartFile(index: nat) returns (f: File)
      requires index <= |files| && forall i :: 0 <= i < |files| ==> files[i] == File(name, i)
      modifies `files
      ensures f == File(name, index) && |files| == if index == old(|files|) then index + 1 else old(|files|)
      ensures forall i :: 0 <= i < |files| ==> files[i] == File(name, i)
    {
      if index == |files| {
        files := files + [File(name, index)];
      }
      f := files[index];
    }

    /** The parts in which a range begins and ends, as read and write number them. */
    method Parts(start: nat, length: nat) returns (first: nat, last: int)
      requires partSize > 0 && length <= partSize
      ensures first == start / partSize
      ensures Corner(partSize, start, length) ==> last == first - 1
      ensures !Corner(partSize, start, length) ==> last == if length <= Fit(partSize, start) then first else first + 1
      ensures length > Fit(partSize, start) ==> (start + length) % partSize == length - Fit(partSize, start)
      ensures Corner(partSize, start, length) ==> (start + length) % partSize == 0 && first > 0
    {
      var end := start + length;
      EndOf(start, length, partSize);
      DivMod(start, partSize);
      first, last := start / partSize, end / partSize;
      if end != 0 && end % partSize == 0 { last := last - 1; }
    }

    /**
     * read. A range that ends where a part ends is read from that part alone. Reading no bytes
     * at the start of a part other than the first takes the branch for two parts, and that reads
     * no bytes at the start of the part before, too.
     */
    method Read(t: ActionThread, start: nat, length: nat, ghost room: map<Key, nat>) returns (r: ReadResult, hung: bool)
      requires Valid() && length <= partSize && Sound(t.Now(), room) && Bounded(room, name, partSize, sumFilesSize)
      requires start + length <= sumFilesSize ==> RoomFor(room, name, partSize, start, length)
      modifies t, `files
      ensures hung ==> t.Stuck()
      ensures Valid() && Sound(t.Now(), room) && Drift(t.Now()) == old(Drift(t.Now()))
      ensures ReadHangs(old(t.Now()), name, partSize, start, length, t.maxCacheSize, hung) || start + length > sumFilesSize
      ensures KeysTouched(name, partSize, start, length) <= old(t.cache.Keys) ==> t.Now() == old(t.Now())
      ensures start + length > sumFilesSize ==> r == Null && !hung && t.Now() == old(t.Now())
      ensures !hung && start + length <= sumFilesSize ==> r.Data? && IsRead(old(t.Now()), t.Now(), room, name, partSize, start, length, r.bytes)
      ensures forall k :: k in t.cache ==> k in old(t.cache) || k in KeysTouched(name, partSize, start, length)
    {
      hung := false;
      if start + length > sumFilesSize { return Null, false; }
      PartsBelow(partSize, start, length, sumFilesSize);
      var first, last := Parts(start, length);
      var file := GetPartFile(first);
      var bytes;
      if first == last {
        ghost var s := t.Now();
        bytes, hung := t.Read(Key(file, start % partSize), length, room);
        if !hung { ReadFromOne(s, t.Now(), room, name, partSize, start, bytes); }
      } else {
        SecondKey(room, name, partSize, sumFilesSize, start, length);
        var second := GetPartFile(last);
        bytes, hung := ReadTwo(t, file, second, start, length, room);
      }
      r := Data(bytes);
    }

    method ReadTwo(t: ActionThread, firstFile: File, secondFile: File, start: nat, length: nat, ghost room: map<Key, nat>)
      returns (bytes: seq<byte>, hung: bool)
      requires partSize > 0 && length <= partSize && Sound(t.Now(), room) && RoomFor(room, name, partSize, start, length)
      requires firstFile == File(name, start / partSize) && secondFile.name == name
      requires Corner(partSize, start, length) || length > Fit(partSize, start)
      requires Corner(partSize, start, length) ==> start / partSize > 0 && secondFile.part == start / partSize - 1
      requires !Corner(partSize, start, length) ==> secondFile.part == start / partSize + 1
      requires (start + length) % partSize == if Corner(partSize, start, length) then 0 else length - Fit(partSize, start)
      requires Key(secondFile, 0) in room
      modifies t
      ensures hung ==> t.Stuck()
      ensures Sound(t.Now(), room) && Drift(t.Now()) == old(Drift(t.Now()))
      ensures ReadHangs(old(t.Now()), name, partSize, start, length, t.maxCacheSize, hung)
      ensures KeysTouched(name, partSize, start, length) <= old(t.cache.Keys) ==> t.Now() == old(t.Now())
      ensures !hung ==> IsRead(old(t.Now()), t.Now(), room, name, partSize, start, length, bytes)
      ensures forall k :: k in t.cache ==> k in old(t.cache) || k in KeysTouched(name, partSize, start, length)
    {
      hide IsRead, IsKeyRead, Drift, Sound;
      ghost var s := t.Now();
      var lengthInSecondFile := (start + length) % partSize;
      var lengthInFirstFile := length - lengthInSecondFile;
      var a, b;
      ghost var u;
      a, b, hung, u := ReadBoth(t, Key(firstFile, start % partSize), lengthInFirstFile, Key(secondFile, 0), lengthInSecondFile, room);
      bytes := a + b;
      if !hung { ReadFromTwo(s, u, t.Now(), room, name, partSize, start, length, a, b, Key(secondFile, 0)); }
    }

    /** Two reads, one after the other; u is the state between them. */
    method ReadBoth(t: ActionThread, first: Key, n: nat, second: Key, m: nat, ghost room: map<Key, nat>)
      returns (a: seq<byte>, b: seq<byte>, hung: bool, ghost u: State)
      requires Sound(t.Now(), room) && first in room && n <= room[first] && second in room && m <= room[second]
      modifies t
      ensures Sound(t.Now(), room) && Drift(t.Now()) == old(Drift(t.Now()))
      ensures hung ==> t.Stuck() && old(Drift(t.Now())) != 0 && old(Drift(t.Now())) + Max(n, m) > t.maxCacheSize
      ensures old(Drift(t.Now())) > 0 && first !in old(t.cache) && old(Drift(t.Now())) + n > t.maxCacheSize ==> hung
      ensures first in old(t.cache) && second in old(t.cache) ==> !hung && t.Now() == old(t.Now())
      ensures !hung ==> IsKeyRead(old(t.Now()), u, room, first, a) && IsKeyRead(u, t.Now(), room, second, b) && |a| == n && |b| == m
      ensures forall k :: k in t.cache ==> k in old(t.cache) || k == first || k == second
    {
      hide Total, Holds, OnDisk;
      b := [];
      a, hung := t.Read(first, n, room);
      u := t.Now();
      if hung { return; }
      b, hung := t.Read(second, m, room);
    }

    /** write. Bytes that do not begin inside or right at the end of the file are not written at all. */
    method Write(t: ActionThread, start: nat, data: seq<byte>, ghost room: map<Key, nat>) returns (hung: bool)
      requires Valid() && |data| <= partSize && Sound(t.Now(), room)
      requires start <= sumFilesSize ==> RoomFor(room, name, partSize, start, |data|)
      requires start < sumFilesSize ==> start + |data| <= sumFilesSize
      modifies t, this
      ensures hung ==> t.Stuck() && start <= old(sumFilesSize)
      ensures Valid() && Sound(t.Now(), room)
      ensures start > old(sumFilesSize) || WriteHangs(old(Drift(t.Now())), RoomOf(room, name, partSize, start, |data|), KeyAt(name, partSize, start) in old(t.cache),
        FirstPiece(partSize, start, |data|), t.maxCacheSize, hung)
      ensures !hung && start <= old(sumFilesSize) && data != [] ==>
        Drift(t.Now()) <= old(Drift(t.Now())) + RoomOf(room, name, partSize, start, |data|) - |data|
      ensures (start <= old(sumFilesSize) && 0 < |data| <= Fit(partSize, start) &&
               Easy(old(t.Now()), KeyAt(name, partSize, start), |data|, t.maxCacheSize)) ==>
        !hung && Direct(old(t.Now()), t.Now(), KeyAt(name, partSize, start), data)
      ensures forall k :: k in t.cache ==> k in old(t.cache) || k in KeysOf(name, partSize, start, |data|)
      ensures sumFilesSize == if start == old(sumFilesSize) then start + |data| else old(sumFilesSize)
      ensures start > old(sumFilesSize) ==> !hung && t.Now() == old(t.Now())
      ensures !hung && start <= old(sumFilesSize) ==> IsWrittenAt(old(t.Now()), t.Now(), room, name, partSize, start, data)
    {
      hide Total, Holds, OnDisk, IsWrittenAt;
      hung := false;
      if start > sumFilesSize { return; }
      var end := start + |data|;
      ReachesAtMostOneMore(partSize, start, |data|, sumFilesSize);
      var first, last := Parts(start, |data|);
      var firstFile := GetPartFile(first);
      var secondFile := GetPartFile(end / partSize);
      if start == sumFilesSize { sumFilesSize := sumFilesSize + |data|; }
      if first == last {
        hung := WriteOne(t, firstFile, start, first, data, room);
      } else {
        EndOf(start, |data|, partSize);
        hung := WriteTwo(t, firstFile, secondFile, start, data, room);
      }
    }

    method WriteOne(t: ActionThread, file: File, start: nat, first: nat, data: seq<byte>, ghost room: map<Key, nat>) returns (hung: bool)
      requires partSize > 0 && |data| <= Fit(partSize, start) && Sound(t.Now(), room) && RoomFor(room, name, partSize, start, |data|)
      requires first == start / partSize && file == File(name, first)
      modifies t
      ensures hung ==> t.Stuck()
      ensures Sound(t.Now(), room)
      ensures WriteHangs(old(Drift(t.Now())), RoomOf(room, name, partSize, start, |data|), KeyAt(name, partSize, start) in old(t.cache),
        FirstPiece(partSize, start, |data|), t.maxCacheSize, hung)
      ensures !hung && data != [] ==> Drift(t.Now()) <= old(Drift(t.Now())) + RoomOf(room, name, partSize, start, |data|) - |data|
      ensures data != [] && Easy(old(t.Now()), KeyAt(name, partSize, start), |data|, t.maxCacheSize) ==>
        !hung && Direct(old(t.Now()), t.Now(), KeyAt(name, partSize, start), data)
      ensures forall k :: k in t.cache ==> k in old(t.cache) || k in KeysOf(name, partSize, start, |data|)
      ensures !hung ==> IsWrittenAt(old(t.Now()), t.Now(), room, name, partSize, start, data)
    {
      hide Total, Holds, OnDisk, IsWrittenAt;
      ghost var s := t.Now();
      StartInPart(partSize, start);
      hung := t.Write(Key(file, start - first * partSize), data, room);
      if !hung { WrittenToOne(s, t.Now(), room, name, partSize, start, data); }
    }

    method WriteTwo(t: ActionThread, firstFile: File, secondFile: File, start: nat, data: seq<byte>, ghost room: map<Key, nat>)
      returns (hung: bool)
      requires partSize > 0 && |data| <= partSize && Sound(t.Now(), room) && RoomFor(room, name, partSize, start, |data|)
      requires firstFile == File(name, start / partSize)
      requires Corner(partSize, start, |data|) || (|data| > Fit(partSize, start) && secondFile == File(name, start / partSize + 1))
      requires (start + |data|) % partSize == if Corner(partSize, start, |data|) then 0 else |data| - Fit(partSize, start)
      requires Corner(partSize, start, |data|) ==> Key(secondFile, 0) in room
      modifies t
      ensures hung ==> t.Stuck()
      ensures Sound(t.Now(), room)
      ensures WriteHangs(old(Drift(t.Now())), RoomOf(room, name, partSize, start, |data|), KeyAt(name, partSize, start) in old(t.cache),
        FirstPiece(partSize, start, |data|), t.maxCacheSize, hung)
      ensures !hung && data != [] ==> Drift(t.Now()) <= old(Drift(t.Now())) + RoomOf(room, name, partSize, start, |data|) - |data|
      ensures forall k :: k in t.cache ==> k in old(t.cache) || k in KeysOf(name, partSize, start, |data|)
      ensures !hung ==> IsWrittenAt(old(t.Now()), t.Now(), room, name, partSize, start, data)
    {
      hide Sound, Holds, Drift, IsWrittenAt, Keeps, Direct, Easy;
      ghost var s := t.Now();
      var lengthInSecondFile := (start + |data|) % partSize;
      var lengthInFirstFile := |data| - lengthInSecondFile;
      hung := t.Write(Key(firstFile, start % partSize), data[..lengthInFirstFile], room);
      if hung { return; }
      ghost var u := t.Now();
      hung := t.Write(Key(secondFile, 0), data[lengthInFirstFile..], room);
      if hung { return; }
      WrittenToTwo(s, u, t.Now(), room, name, partSize, start, data);
    }

    /** add: behind everything that the file has so far. */
    method Add(t: ActionThread, data: seq<byte>, ghost room: map<Key, nat>) returns (start: nat, hung: bool)
      requires Valid() && |data| <= partSize && Sound(t.Now(), room) && RoomFor(room, name, partSize, sumFilesSize, |data|)
      modifies t, this
      ensures start == old(sumFilesSize) && sumFilesSize == start + |data|
      ensures hung ==> t.Stuck()
      ensures Valid() && Sound(t.Now(), room)
      ensures WriteHangs(old(Drift(t.Now())), RoomOf(room, name, partSize, start, |data|), KeyAt(name, partSize, start) in old(t.cache),
        FirstPiece(partSize, start, |data|), t.maxCacheSize, hung)
      ensures !hung && data != [] ==> Drift(t.Now()) <= old(Drift(t.Now())) + RoomOf(room, name, partSize, start, |data|) - |data|
      ensures 0 < |data| <= Fit(partSize, start) && Easy(old(t.Now()), KeyAt(name, partSize, start), |data|, t.maxCacheSize) ==>
        !hung && Direct(old(t.Now()), t.Now(), KeyAt(name, partSize, start), data)
      ensures forall k :: k in t.cache ==> k in old(t.cache) || k in KeysOf(name, partSize, start, |data|)
      ensures !hung ==> IsWrittenAt(old(t.Now()), t.Now(), room, name, partSize, start, data)
    {
      start := sumFilesSize;
      hung := Write(t, start, data, room);
    }
  }
}
