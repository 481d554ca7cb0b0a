/** Draft_6455 itself: buffers with positions, the retry loop around the unfinished frame, the reassembly fields. */
module Draft6455 {
  import opened Bytes
  import opened Frames
  import opened Options
  import opened FrameStream
  import opened Seqs
  import opened Fragments

  // Every method is tied to the functions of Frames, FrameStream and Fragments.

  /** A java.nio.ByteBuffer, up to its limit. */
  class ByteBuffer {
    const data: array<byte>
    var position: nat

    predicate Valid()
      reads this
    {
      position <= data.Length
    }

    /** The bytes before and from the position on. */
    function Before(): seq<byte>
      requires Valid()
      reads this, data
    {
      data[..position]
    }

    function After(): seq<byte>
      requires Valid()
      reads this, data
    {
      data[position..]
    }

    constructor Allocate(capacity: nat)
      ensures Valid() && fresh(data) && data.Length == capacity && position == 0 && forall i :: 0 <= i < capacity ==> data[i] == 0
    {
      data := new byte[capacity](_ => 0);
      position := 0;
    }

    /** The bytes of one read. */
    constructor Wrap(bytes: seq<byte>)
      ensures Valid() && fresh(data) && position == 0 && data[..] == bytes
    {
      data := new byte[|bytes|](i requires 0 <= i < |bytes| => bytes[i]);
      position := 0;
    }

    /** duplicate().position(0): a second view of the same bytes. */
    constructor Duplicate(source: ByteBuffer)
      ensures Valid() && data == source.data && position == 0
    {
      data := source.data;
      position := 0;
    }

    method Get() returns (b: byte)
      requires Valid() && position < data.Length
      modifies `position
      ensures Valid() && position == old(position) + 1
      ensures b == data[old(position)]
    {
      b := data[position];
      position := position + 1;
    }

    /** put(source.array(), source.position(), count), and the source moves on. */
    method Put(source: ByteBuffer, count: nat)
      requires Valid() && source.Valid() && source != this && source.data != data
      requires position + count <= data.Length && source.position + count <= source.data.Length
      modifies `position, data, source`position
      ensures Valid() && source.Valid()
      ensures position == old(position) + count && source.position == old(source.position) + count
      ensures Before() == old(Before()) + old(source.After())[..count]
    {
      forall i | 0 <= i < count {
        data[position + i] := source.data[source.position + i];
      }
      position := position + count;
      source.position := source.position + count;
      assert data[..position] == old(data[..position]) + old(source.data[source.position..])[..count];
    }
  }

  /** Most significant byte first, by an unsigned shift for each byte. */
  method ToByteArray(val: nat, bytecount: nat) returns (buffer: array<byte>)
    ensures fresh(buffer) && buffer[..] == BigEndian(val, bytecount)
  {
    buffer := new byte[bytecount];
    for i := 0 to bytecount
      invariant forall k :: 0 <= k < i ==> buffer[k] == BigEndian(val, bytecount)[k]
    {
      BigEndianDigit(val, bytecount, i);
      buffer[i] := val / Pow256(bytecount - 1 - i) % 256;
    }
  }

  /** createByteBufferFromFramedata; `key` is the random mask of a client. */
  method CreateByteBuffer(f: Frame, key: Option<seq<byte>>) returns (buf: array<byte>)
    requires IsKey(key)
    ensures fresh(buf) && buf[..] == Encode(f, key)
  {
    var mes := f.payload;
    var sizebytes := SizeBytes(|mes|);
    var maskBit := if key.Some? then 128 else 0;
    var head := 1 + (if sizebytes > 1 then sizebytes + 1 else sizebytes);
    buf := new byte[head + (if key.Some? then 4 else 0) + |mes|];
    var one: byte := (if f.fin then 128 else 0) + FromOpcode(f.opcode);
    buf[0] := one;
    if sizebytes == 1 {
      buf[1] := |mes| + maskBit;
    } else {
      var lengthbytes := ToByteArray(|mes|, sizebytes);
      buf[1] := (if sizebytes == 2 then 126 else 127) + maskBit;
      forall i | 0 <= i < sizebytes {
        buf[2 + i] := lengthbytes[i];
      }
      assert lengthbytes[..] == BigEndian(|mes|, sizebytes);
    }
    assert buf[..head] == [FirstByte(f)] + LengthField(|mes|, MaskBit(key));
    PutBody(buf, head, f, key);
    assert buf[..] == buf[..head] + buf[head..];
  }

  method PutBody(buf: array<byte>, head: nat, f: Frame, key: Option<seq<byte>>)
    requires IsKey(key)
    requires buf.Length == head + (if key.Some? then 4 else 0) + |f.payload|
    modifies buf
    ensures buf[..head] == old(buf[..head])
    ensures buf[head..] == Body(f, key)
  {
    var mes := f.payload;
    if key.Some? {
      forall i | 0 <= i < 4 {
        buf[head + i] := key.value[i];
      }
      var start := head + 4;
      for i := 0 to |mes|
        invariant forall k :: 0 <= k < head ==> buf[k] == old(buf[k])
        invariant forall k :: 0 <= k < 4 ==> buf[head + k] == key.value[k]
        invariant forall k :: 0 <= k < i ==> buf[start + k] == Mask(key.value, mes)[k]
      {
        buf[start + i] := Xor(mes[i], key.value[i % 4]);
      }
    } else {
      forall i | 0 <= i < |mes| {
        buf[head + i] := mes[i];
      }
    }
  }

  class Draft {
    const settings: Settings
    var incompleteframe: ByteBuffer?
    var currentContinuousFrame: Option<Opcode>
    var byteBufferList: seq<seq<byte>>
    var continuousFrameType: Option<Opcode>

    constructor (settings: Settings)
      ensures this.settings == settings && Valid() && Pending() == []
      ensures State() == Idle && continuousFrameType == None
    {
      this.settings := settings;
      incompleteframe := null;
      currentContinuousFrame := None;
      byteBufferList := [];
      continuousFrameType := None;
    }

    /** The unfinished frame has room for exactly the size its bytes ask for. */
    ghost predicate Valid()
      reads this, incompleteframe, if incompleteframe == null then {} else {incompleteframe.data}
    {
      incompleteframe != null ==>
        && incompleteframe.position < incompleteframe.data.Length
        && incompleteframe.position > 0
        && Translate(settings, incompleteframe.data[..incompleteframe.position])
           == NeedMore(incompleteframe.data.Length)
    }

    /** The bytes received and not yet read. */
    ghost function Pending(): seq<byte>
      requires Valid()
      reads this, incompleteframe, if incompleteframe == null then {} else {incompleteframe.data}
    {
      if incompleteframe == null then [] else incompleteframe.data[..incompleteframe.position]
    }

    ghost function State(): Reassembly
      reads this
    {
      Reassembly(currentContinuousFrame, byteBufferList)
    }

    /** The buffer for the unfinished frame. */
    ghost function Footprint(): set<object>
      reads this
    {
      if incompleteframe == null then {} else {incompleteframe, incompleteframe.data}
    }

    /** The buffer for the unfinished frame is the one from before, or a new one. */
    twostate predicate OwnOrFresh()
      reads this
    {
      incompleteframe != null ==>
        incompleteframe == old(incompleteframe) || (fresh(incompleteframe) && fresh(incompleteframe.data))
    }

    // -------------------------------------------------------------- translateSingleFrame

    method TranslateSingleFrame(buffer: ByteBuffer) returns (r: Single)
      requires buffer.Valid()
      modifies buffer`position
      ensures buffer.Valid()
      ensures r == Translate(settings, old(buffer.After()))
      ensures r.Done? ==> buffer.position == old(buffer.position) + r.size
    {
      ghost var b := buffer.After();
      ghost var start := buffer.position;
      var maxpacketsize := buffer.data.Length - buffer.position;
      if maxpacketsize < 2 { return NeedMore(2); }
      var b1 := buffer.Get();
      var b2 := buffer.Get();
      assert b1 == b[0] && b2 == b[1];
      var optcode := ToOpcode(b1 % 16);
      if optcode.None? { return Failed(InvalidFrame); }
      var l := TranslatePayloadLength(buffer, b2 % 128, optcode.value, maxpacketsize, b);
      if l.BadLength? { return Failed(l.error); }
      if l.MoreForLength? { return NeedMore(l.preferred); }
      r := TranslateRest(buffer, b1, b2, optcode.value, l.length, l.header, maxpacketsize, b);
    }

    method TranslateRest(buffer: ByteBuffer, b1: byte, b2: byte, op: Opcode, length: nat, header: nat,
                         maxpacketsize: nat, ghost b: seq<byte>)
      returns (r: Single)
      requires buffer.Valid()
      requires |b| == maxpacketsize >= header >= 2 && b1 == b[0] && b2 == b[1]
      requires buffer.position >= header && buffer.data[buffer.position - header..] == b
      modifies buffer`position
      ensures buffer.Valid()
      ensures r == AfterLength(settings, b, op, length, header)
      ensures r.Done? ==> buffer.position == old(buffer.position) - header + r.size
    {
      var mask := b2 >= 128;
      var realpacketsize := header + (if mask then 4 else 0) + length;
      if realpacketsize > INT_MAX { return Failed(Crash); }
      if maxpacketsize < realpacketsize { return NeedMore(realpacketsize); }
      var payload := ReadPayload(buffer, mask, length, header, b);
      var f := Frame(b1 >= 128, op, payload);
      if b1 / 16 % 8 != 0 { return Failed(InvalidFrame); }
      var problem := Problem(settings, f);
      if problem.Some? { return Failed(problem.value); }
      return Done(f, realpacketsize);
    }

    method TranslatePayloadLength(buffer: ByteBuffer, length7: byte, op: Opcode, maxpacketsize: nat, ghost b: seq<byte>)
      returns (r: Length)
      requires buffer.Valid() && 2 <= buffer.position
      requires |b| == maxpacketsize >= 2 && buffer.data.Length - buffer.position == maxpacketsize - 2
      requires buffer.data[buffer.position - 2..] == b && length7 == b[1] % 128
      modifies buffer`position
      ensures buffer.Valid()
      ensures r == ReadLength(settings, b, op)
      ensures r.Known? ==> buffer.position == old(buffer.position) - 2 + r.header
    {
      var length: int, header := length7, 2;
      if length7 > 125 {
        if IsControl(op) { return BadLength(InvalidFrame); }
        header := if length7 == 126 then 4 else 10;
        if maxpacketsize < header { return MoreForLength(header); }
        DropThenSlice(buffer.data[..], buffer.position - 2, 2, header);
        assert buffer.data[..][buffer.position - 2..] == b;
        var bytes := GetBytes(buffer, header - 2);
        assert bytes == b[2..header];
        length := if length7 == 126 then Value(bytes) else SignedLong(bytes);
      }
      var problem := LimitProblem(settings, length);
      if problem.Some? { return BadLength(problem.value); }
      return Known(length, header);
    }

    method GetBytes(buffer: ByteBuffer, count: nat) returns (bytes: seq<byte>)
      requires buffer.Valid() && buffer.position + count <= buffer.data.Length
      modifies buffer`position
      ensures buffer.Valid() && buffer.position == old(buffer.position) + count
      ensures bytes == buffer.data[old(buffer.position)..old(buffer.position) + count]
    {
      bytes := [];
      for i := 0 to count
        invariant buffer.position == old(buffer.position) + i
        invariant bytes == buffer.data[old(buffer.position)..old(buffer.position) + i]
      {
        var b := buffer.Get();
        bytes := bytes + [b];
      }
    }

    method ReadPayload(buffer: ByteBuffer, mask: bool, length: nat, ghost header: nat, ghost b: seq<byte>)
      returns (payload: seq<byte>)
      requires buffer.Valid()
      requires |b| >= 2 && mask == Masked(b) && RealSize(b, length, header) <= |b|
      requires header <= buffer.position && buffer.data[buffer.position - header..] == b
      modifies buffer`position
      ensures buffer.Valid()
      ensures buffer.position == old(buffer.position) + (if mask then 4 else 0) + length
      ensures payload == Payload(b, length, header)
    {
      hide Xor, Mask;
      ghost var bytes, base := buffer.data[..], buffer.position - header;
      assert bytes[base..] == b;
      if mask {
        DropThenSlice(bytes, base, header, header + 4);
        DropThenSlice(bytes, base, header + 4, header + 4 + length);
        var maskskey := GetBytes(buffer, 4);
        payload := Unmask(buffer, maskskey, length, b[header + 4..header + 4 + length]);
      } else {
        DropThenSlice(bytes, base, header, header + length);
        payload := buffer.data[buffer.position..buffer.position + length];
        buffer.position := buffer.position + length;
      }
    }

    /** The loop over a masked payload. */
    method Unmask(buffer: ByteBuffer, maskskey: seq<byte>, length: nat, ghost masked: seq<byte>) returns (payload: seq<byte>)
      requires buffer.Valid() && |maskskey| == 4 && buffer.position + length <= buffer.data.Length
      requires masked == buffer.data[buffer.position..buffer.position + length]
      modifies buffer`position
      ensures buffer.Valid() && buffer.position == old(buffer.position) + length && payload == Mask(maskskey, masked)
    {
      hide Xor;
      payload := [];
      for i := 0 to length
        invariant buffer.position == old(buffer.position) + i
        invariant payload == Mask(maskskey, masked)[..i]
      {
        var x := buffer.Get();
        assert x == masked[i];
        payload := payload + [Xor(x, maskskey[i % 4])];
      }
    }

    // -------------------------------------------------------------- translateFrame

    /** The bytes are not enough for the unfinished frame: all of them are stored. */
    method StoreAvailable(buffer: ByteBuffer)
      requires Valid() && buffer.Valid() && incompleteframe != null
      requires buffer != incompleteframe && buffer.data != incompleteframe.data
      requires buffer.data.Length - buffer.position < incompleteframe.data.Length - incompleteframe.position
      modifies buffer`position, incompleteframe, incompleteframe.data
      ensures Valid() && buffer.Valid() && buffer.After() == []
      ensures Pending() == old(Pending() + buffer.After())
      ensures ParseAll(settings, Pending()) == Parsed([], Pending())
    {
      PrefixStable(settings, Pending(), buffer.After());
      ghost var before, after := Pending(), buffer.After();
      incompleteframe.Put(buffer, buffer.data.Length - buffer.position);
      assert after[..|after|] == after;
      assert incompleteframe.Before() == before + after;
    }

    /** The unfinished frame gets the bytes it asked for; either it is read, or it asks for more. */
    method CompleteFrame(buffer: ByteBuffer) returns (r: Single)
      requires Valid() && buffer.Valid() && incompleteframe != null
      requires buffer != incompleteframe && buffer.data != incompleteframe.data
      requires buffer.data.Length - buffer.position >= incompleteframe.data.Length - incompleteframe.position
      modifies this`incompleteframe, buffer`position, incompleteframe, incompleteframe.data
      ensures buffer.Valid() && buffer.position > old(buffer.position)
      ensures var p := ParseAll(settings, old(Pending() + buffer.After()));
        match r
        case Failed(e) => p == Broken(e) && incompleteframe == old(incompleteframe)
        case Done(f, _) => incompleteframe == null && p == Prepend([f], ParseAll(settings, buffer.After()))
        case NeedMore(_) =>
          && incompleteframe != null && fresh(incompleteframe) && fresh(incompleteframe.data) && Valid()
          && Pending() + buffer.After() == old(Pending() + buffer.After())
    {
      var expected := incompleteframe.data.Length - incompleteframe.position;
      ghost var before, after := Pending(), buffer.After();
      PrefixStable(settings, before, after[..expected]);
      incompleteframe.Put(buffer, expected);
      ghost var full := incompleteframe.data[..];
      assert full == incompleteframe.Before() == before + after[..expected];
      assert before + after == full + buffer.After();
      var view := new ByteBuffer.Duplicate(incompleteframe);
      assert view.After() == full;
      r := TranslateSingleFrame(view);
      PreferredIsLarger(settings, full);
      PrefixStable(settings, full, buffer.After());
      if r.Done? {
        assert (full + buffer.After())[r.size..] == buffer.After();
        incompleteframe := null;
      } else if r.NeedMore? {
        Extend(r.preferred);
      }
    }

    /** A larger buffer takes over the bytes of the full one. */
    method Extend(preferred: nat)
      requires incompleteframe != null && 0 < incompleteframe.data.Length < preferred
      modifies this`incompleteframe, incompleteframe`position
      ensures incompleteframe != null && fresh(incompleteframe) && fresh(incompleteframe.data)
      ensures incompleteframe.data.Length == preferred
      ensures incompleteframe.position == old(incompleteframe.data.Length)
      ensures incompleteframe.data[..incompleteframe.position] == old(incompleteframe.data[..])
    {
      var extended := new ByteBuffer.Allocate(preferred);
      incompleteframe.position := 0;
      extended.Put(incompleteframe, incompleteframe.data.Length);
      incompleteframe := extended;
      assert extended.data[..extended.position] == extended.Before();
    }

    /** The inner loop: as many full frames as there are, the remaining bytes stored. */
    method ReadFullFrames(buffer: ByteBuffer, first: seq<Frame>) returns (frames: seq<Frame>, error: Option<Error>)
      requires buffer.Valid() && incompleteframe == null
      modifies this`incompleteframe, buffer`position
      ensures buffer.Valid()
      ensures incompleteframe != null ==> fresh(incompleteframe) && fresh(incompleteframe.data)
      ensures var p := Prepend(first, ParseAll(settings, old(buffer.After())));
        if error.Some? then p == Broken(error.value)
        else Valid() && p == Parsed(frames, Pending())
    {
      hide Translate;
      frames, error := first, None;
      ghost var stream := buffer.After();
      while buffer.position < buffer.data.Length
        invariant buffer.Valid() && incompleteframe == null && error == None
        invariant Prepend(first, ParseAll(settings, stream)) == Prepend(frames, ParseAll(settings, buffer.After()))
        decreases buffer.data.Length - buffer.position
      {
        ghost var b := buffer.After();
        var mark := buffer.position;
        PreferredIsLarger(settings, b);
        var cur := TranslateSingleFrame(buffer);
        if cur.Failed? {
          error := Some(cur.error);
          return;
        }
        if cur.NeedMore? {
          buffer.position := mark;
          var unfinished := new ByteBuffer.Allocate(cur.preferred);
          unfinished.Put(buffer, buffer.data.Length - buffer.position);
          incompleteframe := unfinished;
          assert unfinished.data[..unfinished.position] == unfinished.Before() == b;
          assert frames + [] == frames;
          return;
        }
        assert buffer.After() == b[cur.size..];
        PrependTwice(frames, [cur.frame], ParseAll(settings, buffer.After()));
        frames := frames + [cur.frame];
      }
      assert frames + [] == frames;
    }

    /**
     * The call returns exactly the frames that reading the old unread bytes and the new ones at
     * once gives, and keeps exactly the bytes that reading leaves over.
     */
    method TranslateFrame(buffer: ByteBuffer) returns (frames: seq<Frame>, error: Option<Error>)
      requires Valid() && buffer.Valid()
      requires incompleteframe != null ==> buffer != incompleteframe && buffer.data != incompleteframe.data
      modifies this`incompleteframe, buffer`position
      modifies incompleteframe, if incompleteframe == null then {} else {incompleteframe.data}
      ensures buffer.Valid() && OwnOrFresh()
      ensures var p := ParseAll(settings, old(Pending() + buffer.After()));
        if error.Some? then p == Broken(error.value)
        else Valid() && p == Parsed(frames, Pending())
    {
      var first: seq<Frame> := [];
      ghost var stream := Pending() + buffer.After();
      PrependNothing(ParseAll(settings, stream));
      assert incompleteframe == null ==> stream == buffer.After();
      while incompleteframe != null
        invariant buffer.Valid() && Valid()
        invariant incompleteframe != null ==> buffer != incompleteframe && buffer.data != incompleteframe.data
        invariant OwnOrFresh()
        invariant incompleteframe != null ==> first == [] && Pending() + buffer.After() == stream
        invariant incompleteframe == null ==>
          ParseAll(settings, stream) == Prepend(first, ParseAll(settings, buffer.After()))
        decreases buffer.data.Length - buffer.position
      {
        if incompleteframe.data.Length - incompleteframe.position > buffer.data.Length - buffer.position {
          StoreAvailable(buffer);
          return [], None;
        }
        var cur := CompleteFrame(buffer);
        if cur.Failed? { return [], Some(cur.error); }
        if cur.Done? { first := [cur.frame]; }
      }
      frames, error := ReadFullFrames(buffer, first);
    }

    // -------------------------------------------------------------- processFrame

    method ProcessFrame(f: Frame) returns (events: seq<Event>, error: Option<Error>)
      modifies `currentContinuousFrame, `byteBufferList
      ensures Step(State(), events, error) == Process(settings, old(State()), f)
    {
      events, error := [], None;
      if f.opcode == Closing {
        var reason := CloseReason(settings, f.payload);
        events := [GotClose(CloseCode(settings, f.payload), if reason.Some? then reason.value else [])];
      } else if f.opcode == Ping {
        events := [GotPing(f.payload)];
      } else if f.opcode == Pong {
        events := [GotPong(f.payload)];
      } else if !f.fin || f.opcode == Continuous {
        events, error := ProcessContinuousAndNonFin(f);
      } else if currentContinuousFrame.Some? {
        error := Some(Protocol);
      } else {
        var event := Deliver(settings, f.opcode, f.payload);
        if event.None? { error := Some(NoUtf8); } else { events := [event.value]; }
      }
    }

    method ProcessContinuousAndNonFin(f: Frame) returns (events: seq<Event>, error: Option<Error>)
      requires !f.fin || f.opcode == Continuous
      requires !IsControl(f.opcode)
      modifies `currentContinuousFrame, `byteBufferList
      ensures Step(State(), events, error) == Process(settings, old(State()), f)
    {
      events, error := [], None;
      if f.opcode != Continuous {
        error := ProcessIsNotFin(f);
      } else if f.fin {
        events, error := ProcessIsFin(f);
      } else if currentContinuousFrame.None? {
        error := Some(Protocol);
      }
      if error.Some? { return; }
      if f.opcode == Text && !ValidUtf8(settings, f.payload) {
        error := Some(NoUtf8);
        return;
      }
      if f.opcode == Continuous && currentContinuousFrame.Some? {
        byteBufferList := byteBufferList + [f.payload];
      }
    }

    method ProcessIsNotFin(f: Frame) returns (error: Option<Error>)
      modifies `currentContinuousFrame, `byteBufferList
      ensures error.Some? || !(f.opcode == Text && !ValidUtf8(settings, f.payload)) ==>
        Step(State(), [], error) == FirstPart(settings, old(State()), f)
      ensures error.None? && f.opcode == Text && !ValidUtf8(settings, f.payload) ==>
        Step(State(), [], Some(NoUtf8)) == FirstPart(settings, old(State()), f)
    {
      if currentContinuousFrame.Some? { return Some(Protocol); }
      currentContinuousFrame := Some(f.opcode);
      byteBufferList := byteBufferList + [f.payload];
      error := CheckBufferLimit();
    }

    method ProcessIsFin(f: Frame) returns (events: seq<Event>, error: Option<Error>)
      modifies `currentContinuousFrame, `byteBufferList
      ensures Step(State(), events, error) == LastPart(settings, old(State()), f.payload)
      ensures error.None? ==> currentContinuousFrame.None?
    {
      events, error := [], None;
      if currentContinuousFrame.None? { return [], Some(Protocol); }
      byteBufferList := byteBufferList + [f.payload];
      error := CheckBufferLimit();
      if error.Some? { return; }
      var data := PayloadFromList();
      if currentContinuousFrame == Some(Text) && !ValidUtf8(settings, data) { return [], Some(NoUtf8); }
      var event := Deliver(settings, currentContinuousFrame.value, data);
      if event.None? { return [], Some(NoUtf8); }
      events := [event.value];
      currentContinuousFrame := None;
      byteBufferList := [];
    }

    /** The size is summed up entry by entry; on excess the list is cleared. */
    method CheckBufferLimit() returns (error: Option<Error>)
      modifies `byteBufferList
      ensures if |Concat(old(byteBufferList))| > settings.maxFrameSize
        then byteBufferList == [] && error == Some(LimitExceeded(settings.maxFrameSize))
        else byteBufferList == old(byteBufferList) && error == None
    {
      var totalSize := 0;
      for i := 0 to |byteBufferList|
        invariant byteBufferList == old(byteBufferList)
        invariant totalSize == |Concat(byteBufferList[..i])|
      {
        ConcatSnoc(byteBufferList, i);
        totalSize := totalSize + |byteBufferList[i]|;
      }
      assert byteBufferList[..|byteBufferList|] == byteBufferList;
      if totalSize > settings.maxFrameSize {
        byteBufferList := [];
        return Some(LimitExceeded(settings.maxFrameSize));
      }
      return None;
    }

    method PayloadFromList() returns (data: seq<byte>)
      ensures data == Concat(byteBufferList)
    {
      data := [];
      for i := 0 to |byteBufferList|
        invariant data == Concat(byteBufferList[..i])
      {
        ConcatSnoc(byteBufferList, i);
        data := data + byteBufferList[i];
      }
      assert byteBufferList[..|byteBufferList|] == byteBufferList;
    }

    // -------------------------------------------------------------- continuousFrame

    /** None is the IllegalArgumentException. */
    method ContinuousFrame(op: Opcode, payload: seq<byte>, fin: bool) returns (f: Option<Frame>)
      modifies `continuousFrameType
      ensures Sent(continuousFrameType, f) == Fragments.Piece(settings, old(continuousFrameType), op, payload, fin)
    {
      if op != Binary && op != Text { return None; }
      var opcode := Continuous;
      if continuousFrameType.None? {
        continuousFrameType := Some(op);
        opcode := op;
      }
      var bui := Frame(fin, opcode, payload);
      if Problem(settings, bui).Some? {
        return None;
      }
      continuousFrameType := if fin then None else Some(op);
      return Some(bui);
    }

    // -------------------------------------------------------------- decodeFrames

    /** One read of the connection: translateFrame, then processFrame on each frame. */
    method DecodeFrames(buffer: ByteBuffer) returns (events: seq<Event>, error: Option<Error>)
      requires Valid() && buffer.Valid()
      requires incompleteframe != null ==> buffer != incompleteframe && buffer.data != incompleteframe.data
      modifies this`incompleteframe, this`currentContinuousFrame, this`byteBufferList, buffer`position
      modifies incompleteframe, if incompleteframe == null then {} else {incompleteframe.data}
      ensures match ParseAll(settings, old(Pending() + buffer.After()))
        case Broken(e) => error == Some(e) && events == [] && State() == old(State())
        case Parsed(frames, rest) =>
          && Step(State(), events, error) == ProcessAll(settings, old(State()), frames)
          && Valid() && Pending() == rest
    {
      var frames;
      events := [];
      frames, error := TranslateFrame(buffer);
      if error.None? { events, error := ProcessFrames(frames); }
    }

    method ProcessFrames(frames: seq<Frame>) returns (events: seq<Event>, error: Option<Error>)
      modifies `currentContinuousFrame, `byteBufferList
      ensures Step(State(), events, error) == ProcessAll(settings, old(State()), frames)
    {
      events, error := [], None;
      ghost var st := State();
      for i := 0 to |frames|
        invariant error == None
        invariant Step(State(), events, None) == ProcessAll(settings, st, frames[..i])
      {
        ProcessNext(settings, st, frames, i);
        var more;
        more, error := ProcessFrame(frames[i]);
        events := events + more;
        if error.Some? { return; }
      }
      assert frames[..|frames|] == frames;
    }
  }

  /** One more frame: the run goes on from where it was, or this frame ends the whole run. */
  lemma {:induction false} ProcessNext(c: Settings, st: Reassembly, frames: seq<Frame>, i: nat)
    requires i < |frames| && ProcessAll(c, st, frames[..i]).error.None?
    ensures var s := ProcessAll(c, st, frames[..i]);
      var t := Process(c, s.state, frames[i]);
      var u := Step(t.state, s.events + t.events, t.error);
      ProcessAll(c, st, frames[..i + 1]) == u && (t.error.Some? ==> ProcessAll(c, st, frames) == u)
  {
    var s := ProcessAll(c, st, frames[..i]);
    assert frames[..i + 1] == frames[..i] + [frames[i]];
    ProcessInTwoParts(c, st, frames[..i], [frames[i]]);
    ProcessOne(c, s.state, frames[i]);
    assert frames == frames[..i + 1] + frames[i + 1..];
    ProcessInTwoParts(c, st, frames[..i + 1], frames[i + 1..]);
  }

  lemma {:induction false} ProcessOne(c: Settings, st: Reassembly, f: Frame)
    ensures ProcessAll(c, st, [f]) == Process(c, st, f)
  {
    var s := Process(c, st, f);
    assert s.events + [] == s.events;
    assert [f][1..] == [];
  }
}
