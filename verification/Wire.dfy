/** What the bytes of a frame are (RFC 6455, sections 5.2 to 5.5), for the decoder and for the encoder. */
module Wire {
  import opened Bytes
  import opened CloseCodes
  import opened Fragments
  import opened Frames
  import opened Options

  // ------------------------------------------------------------------ the format

  /** The first byte: the mark of a final fragment, no reserved bits, and the opcode. */
  predicate Starts(first: byte, fin: bool, op: Opcode) {
    && (first >= 0x80 <==> fin)
    && first % 0x80 ==
       match op
       case Continuous => 0x0
       case Text => 0x1
       case Binary => 0x2
       case Closing => 0x8
       case Ping => 0x9
       case Pong => 0xA
  }

  /** The length of the payload, in one of three forms, and where the bytes behind it begin. */
  predicate HasLength(b: seq<byte>, length: nat, header: nat)
    requires |b| >= 2
  {
    var short := b[1] % 0x80;
    && header == (if short <= 125 then 2 else if short == 126 then 4 else 10) <= |b|
    && length == (if short <= 125 then short else if short == 126 then (b[2] as int) * 256 + b[3] else Value(b[2..10]))
  }

  /** The payload as it is, or each byte of it with the bits of one byte of the key turned over. */
  ghost predicate HasPayload(b: seq<byte>, header: nat, payload: seq<byte>)
    requires |b| >= 2
  {
    if b[1] < 0x80 then header + |payload| <= |b| && forall i :: 0 <= i < |payload| ==> payload[i] == b[header + i]
    else
      && header + 4 + |payload| <= |b|
      && forall i :: 0 <= i < |payload| ==> IsXor(payload[i], b[header + 4 + i], b[header + i % 4])
  }

  /** `b` begins with the frame f: `header` bytes of it, perhaps a key, and the payload. */
  ghost predicate IsFrame(b: seq<byte>, f: Frame, header: nat, size: nat) {
    && |b| >= 2 && Starts(b[0], f.fin, f.opcode) && HasLength(b, |f.payload|, header) && HasPayload(b, header, f.payload)
    && size == header + (if b[1] < 0x80 then 0 else 4) + |f.payload|
  }

  /** What the decoder accepts: control frames are whole and short, and no limit is exceeded. */
  predicate IsAccepted(c: Settings, f: Frame, header: nat, size: nat) {
    && (IsControl(f.opcode) ==> f.fin && header == 2)
    && |f.payload| <= c.maxFrameSize && size <= INT_MAX && Problem(c, f).None?
  }

  // ------------------------------------------------------------------ the decoder

  lemma {:induction false} ValueOfTwo(s: seq<byte>)
    requires |s| == 2
    ensures Value(s) == (s[0] as int) * 256 + s[1]
  {
    assert s[..1][..0] == [];
    assert Value(s[..1]) == s[0];
  }

  lemma {:induction false} LengthRead(c: Settings, b: seq<byte>, op: Opcode, length: nat, header: nat)
    requires |b| >= 2
    ensures ReadLength(c, b, op) == Known(length, header)
      <==> HasLength(b, length, header) && length <= INT_MAX && length <= c.maxFrameSize && (IsControl(op) ==> header == 2)
  {
    if |b| >= 4 {
      ValueOfTwo(b[2..4]);
      assert b[2..4][0] == b[2] && b[2..4][1] == b[3];
    }
    if |b| >= 10 {
      ValueBound(b[2..10]);
      Powers();
    }
  }

  lemma {:induction false} PayloadRead(b: seq<byte>, header: nat, payload: seq<byte>)
    requires |b| >= 2 && header >= 2 && |b| >= RealSize(b, |payload|, header)
    ensures Payload(b, |payload|, header) == payload <==> HasPayload(b, header, payload)
  {
    hide IsXor;
    var p, n := Payload(b, |payload|, header), |payload|;
    if Masked(b) {
      var key, s := b[header..header + 4], b[header + 4..header + 4 + n];
      forall i | 0 <= i < n ensures p[i] == payload[i] <==> IsXor(payload[i], b[header + 4 + i], b[header + i % 4]) {
        assert s[i] == b[header + 4 + i] && key[i % 4] == b[header + i % 4];
        OnlyXor(payload[i], s[i], key[i % 4]);
      }
    } else {
      forall i | 0 <= i < n ensures p[i] == b[header + i] {}
    }
    if HasPayload(b, header, payload) { assert p == payload; }
  }

  lemma {:induction false} FirstByteRead(first: byte, fin: bool, op: Opcode)
    ensures (first >= 128) == fin && ToOpcode(first % 16) == Some(op) && first / 16 % 8 == 0 <==> Starts(first, fin, op)
  {
    assert first % 128 == 16 * (first / 16 % 8) + first % 16;
  }

  lemma ControlIsFinal(c: Settings, f: Frame)
    requires Problem(c, f).None? && IsControl(f.opcode)
    ensures f.fin
  {}

  lemma {:induction false} ReadIsFrame(c: Settings, b: seq<byte>, f: Frame, size: nat) returns (header: nat)
    requires Translate(c, b) == Done(f, size)
    ensures IsFrame(b, f, header, size) && IsAccepted(c, f, header, size)
  {
    hide Problem, ReadLength, Starts, IsXor, Mask, HasPayload;
    var l := ReadLength(c, b, f.opcode);
    header := l.header;
    FirstByteRead(b[0], f.fin, f.opcode);
    LengthRead(c, b, f.opcode, l.length, header);
    assert |f.payload| == l.length;
    PayloadRead(b, header, f.payload);
    if IsControl(f.opcode) { ControlIsFinal(c, f); }
  }

  lemma {:induction false} FrameIsRead(c: Settings, b: seq<byte>, f: Frame, header: nat, size: nat)
    requires IsFrame(b, f, header, size) && IsAccepted(c, f, header, size)
    ensures Translate(c, b) == Done(f, size)
  {
    hide Problem, ReadLength, Starts, IsXor, Payload;
    FirstByteRead(b[0], f.fin, f.opcode);
    LengthRead(c, b, f.opcode, |f.payload|, header);
    PayloadRead(b, header, f.payload);
  }

  /** The decoder, for all bytes: it reads a frame exactly if they begin with it and it is one to be accepted. */
  lemma {:induction false} FrameRead(c: Settings, b: seq<byte>, f: Frame, size: nat)
    ensures Translate(c, b) == Done(f, size) <==>
      exists header :: IsFrame(b, f, header, size) && IsAccepted(c, f, header, size)
  {
    hide Translate, IsFrame, IsAccepted;
    if Translate(c, b) == Done(f, size) { var header := ReadIsFrame(c, b, f, size); }
    if header :| IsFrame(b, f, header, size) && IsAccepted(c, f, header, size) { FrameIsRead(c, b, f, header, size); }
  }

  /** Bytes begin with one frame at most. */
  lemma {:induction false} FrameUnique(b: seq<byte>, f: Frame, header: nat, size: nat, g: Frame, header': nat, size': nat)
    requires IsFrame(b, f, header, size) && IsFrame(b, g, header', size')
    ensures f == g && header == header' && size == size'
  {
    assert f.opcode == g.opcode && |f.payload| == |g.payload|;
    forall i | 0 <= i < |f.payload| ensures f.payload[i] == g.payload[i] {
      if b[1] >= 0x80 {
        OnlyXor(f.payload[i], b[header + 4 + i], b[header + i % 4]);
        OnlyXor(g.payload[i], b[header + 4 + i], b[header + i % 4]);
      }
    }
  }

  // ------------------------------------------------------------------ the encoder

  lemma {:induction false} LengthWritten(f: Frame, key: Option<seq<byte>>, tail: seq<byte>)
    requires IsKey(key) && |f.payload| < TWO_63
    ensures var b := Encode(f, key) + tail;
      |b| >= 2 && HasLength(b, |f.payload|, HeaderSize(f)) && (b[1] >= 0x80 <==> key.Some?)
  {
    var field := LengthField(|f.payload|, MaskBit(key));
    var b, n := Encode(f, key) + tail, |field|;
    assert b == [FirstByte(f)] + field + (Body(f, key) + tail);
    ShortestLength(|f.payload|, MaskBit(key));
    assert b[1] == field[0] && b[1..1 + n] == field;
    if n == 3 {
      ValueOfTwo(field[1..]);
      assert b[2] == field[1] && b[3] == field[2];
    }
    if n == 9 { assert b[2..10] == field[1..]; }
  }

  /** The encoder: its bytes begin with the frame, with the key in front of the payload if there is one. */
  lemma {:induction false} FrameWritten(f: Frame, key: Option<seq<byte>>, tail: seq<byte>)
    requires IsKey(key) && |f.payload| < TWO_63
    ensures var b, header := Encode(f, key) + tail, HeaderSize(f);
      && IsFrame(b, f, header, |Encode(f, key)|)
      && (b[1] >= 0x80 <==> key.Some?) && (key.Some? ==> b[header..header + 4] == key.value)
  {
    hide HasLength, HasPayload, Starts, Payload, LengthField;
    var b, header := Encode(f, key) + tail, HeaderSize(f);
    LengthWritten(f, key, tail);
    FirstByteFields(f);
    FirstByteRead(b[0], f.fin, f.opcode);
    SizeWritten(f, key);
    PayloadOfEncoded(f, key, tail);
    PayloadRead(b, header, f.payload);
    if key.Some? { KeyWritten(f, key, tail); }
  }

  lemma SizeWritten(f: Frame, key: Option<seq<byte>>)
    requires IsKey(key)
    ensures 2 <= HeaderSize(f) && |Encode(f, key)| == HeaderSize(f) + (if key.Some? then 4 else 0) + |f.payload|
  {}

  lemma {:induction false} KeyWritten(f: Frame, key: Option<seq<byte>>, tail: seq<byte>)
    requires IsKey(key) && key.Some?
    ensures HeaderSize(f) + 4 <= |Encode(f, key) + tail|
    ensures (Encode(f, key) + tail)[HeaderSize(f)..HeaderSize(f) + 4] == key.value
  {
    var head := [FirstByte(f)] + LengthField(|f.payload|, MaskBit(key));
    assert Encode(f, key) + tail == head + key.value + (Mask(key.value, f.payload) + tail);
    Middle(head, key.value, Mask(key.value, f.payload) + tail);
  }

  // ------------------------------------------------------------------ close frames

  /** The codes that may be on the wire; 1007 needs a reason here. */
  predicate IsAllowed(code: int, reason: bool) {
    || (1000 <= code <= 1014 && code != 1004 && code != 1005 && code != 1006 && (code == 1007 ==> reason))
    || 3000 <= code <= 4999
  }

  lemma AllowedCodes(code: int, reason: bool)
    ensures CodeProblem(code, reason).None? <==> IsAllowed(code, reason)
  {}

  lemma {:induction false} ClosePayloadRead(c: Settings, code: nat, reason: seq<byte>)
    requires code < 0x1_0000 && c.strict(reason)
    ensures CloseCode(c, ClosePayload(code, reason)) == code && CloseReason(c, ClosePayload(code, reason)) == Some(reason)
  {
    var p := ClosePayload(code, reason);
    ValueOfBigEndian(code, 2);
    Powers();
    ValueOfTwo(BigEndian(code, 2));
    assert p[0] == BigEndian(code, 2)[0] && p[1] == BigEndian(code, 2)[1] && p[2..] == reason;
  }

  /**
   * A close frame from its sender to the listener: it is read exactly if the code is allowed and the
   * frame is short enough, and then the listener is told this code and this reason.
   */
  lemma {:induction false} CloseArrives(c: Settings, st: Reassembly, code: nat, reason: seq<byte>, key: Option<seq<byte>>, tail: seq<byte>)
    requires IsKey(key) && code < 0x1_0000 && |reason| < TWO_63 - 2 && c.strict(reason)
    ensures var f := Frame(true, Closing, ClosePayload(code, reason));
      && Process(c, st, f) == Step(st, [GotClose(code, reason)], None)
      && (Translate(c, Encode(f, key) + tail) == Done(f, |Encode(f, key)|)
          <==> IsAllowed(code, reason != []) && |reason| <= 123 && |reason| + 2 <= c.maxFrameSize)
  {
    hide Translate, Encode;
    var f := Frame(true, Closing, ClosePayload(code, reason));
    var b, n := Encode(f, key) + tail, |Encode(f, key)|;
    ClosePayloadRead(c, code, reason);
    AllowedCodes(code, reason != []);
    FrameWritten(f, key, tail);
    FrameRead(c, b, f, n);
    if header :| IsFrame(b, f, header, n) && IsAccepted(c, f, header, n) {
      FrameUnique(b, f, header, n, f, HeaderSize(f), n);
    }
    assert HeaderSize(f) == 2 <==> |reason| <= 123;
  }

  lemma {:induction false} ClosePayloadOf(p: seq<byte>)
    requires |p| >= 2
    ensures p == ClosePayload((p[0] as int) * 256 + p[1], p[2..])
  {
    var v := (p[0] as int) * 256 + p[1];
    assert v / 256 == p[0] && v % 256 == p[1];
    assert BigEndian(v / 256, 1) == [p[0]];
  }

  /** What the listener is told of a close frame that was read. */
  lemma {:induction false} CloseRead(c: Settings, st: Reassembly, b: seq<byte>)
    requires Translate(c, b).Done? && Translate(c, b).frame.opcode == Closing
    ensures var p, s := Translate(c, b).frame.payload, Process(c, st, Translate(c, b).frame);
      && s.error == None && s.state == st && |s.events| == 1 && s.events[0].GotClose?
      && var code, reason := s.events[0].code, s.events[0].reason;
      && IsAllowed(code, reason != [])
      && (|p| == 0 ==> code == 1000 && reason == []) && (|p| == 1 ==> code == 1002 && reason == [])
      && (|p| >= 2 ==> p == ClosePayload(code, reason))
  {
    hide IsAllowed, CodeProblem;
    var f := Translate(c, b).frame;
    if |f.payload| >= 2 { ClosePayloadOf(f.payload); }
    AllowedCodes(CloseCode(c, f.payload), CloseReason(c, f.payload).value != []);
  }
}
