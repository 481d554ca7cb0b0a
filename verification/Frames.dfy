/** The frame format of RFC 6455 as Draft_6455 writes and reads it. */
module Frames {
  import opened Bytes
  import opened CloseCodes
  import opened Options

  // One function for the bytes of a frame, one for what a decoder makes of the bytes it has, and the round trip.

  datatype Opcode = Continuous | Text | Binary | Ping | Pong | Closing

  /** `payload` is the unmasked payload on the wire, also for close frames. */
  datatype Frame = Frame(fin: bool, opcode: Opcode, payload: seq<byte>)

  /** The exceptions of the Java code; Crash is an unchecked one. */
  datatype Error =
    | InvalidFrame
    | Protocol
    | NoUtf8
    | LimitExceeded(limit: int)
    | Crash

  /** `step` is the UTF-8 automaton (state 1 rejects); `strict` is the JDK's strict decoder. */
  datatype Settings = Settings(maxFrameSize: nat, step: (int, byte) -> int, strict: seq<byte> -> bool)

  /** What one attempt to read a frame gives. */
  datatype Single =
    | Done(frame: Frame, size: nat)
    | NeedMore(preferred: nat)
    | Failed(error: Error)

  predicate IsControl(op: Opcode) {
    op == Ping || op == Pong || op == Closing
  }

  function FromOpcode(op: Opcode): byte {
    match op
    case Continuous => 0
    case Text => 1
    case Binary => 2
    case Closing => 8
    case Ping => 9
    case Pong => 10
  }

  function ToOpcode(b: byte): Option<Opcode> {
    if b == 0 then Some(Continuous)
    else if b == 1 then Some(Text)
    else if b == 2 then Some(Binary)
    else if b == 8 then Some(Closing)
    else if b == 9 then Some(Ping)
    else if b == 10 then Some(Pong)
    else None
  }

  // ---------------------------------------------------------------- validity of a frame

  /** No prefix drives the automaton, started in `state`, into its rejecting state. */
  predicate NeverRejects(step: (int, byte) -> int, state: int, s: seq<byte>)
    decreases |s|
  {
    s == [] || (step(state, s[0]) != 1 && NeverRejects(step, step(state, s[0]), s[1..]))
  }

  predicate ValidUtf8(c: Settings, s: seq<byte>) {
    NeverRejects(c.step, 0, s)
  }

  lemma {:induction false} PrefixNeverRejects(step: (int, byte) -> int, state: int, s: seq<byte>, k: nat)
    requires k <= |s| && NeverRejects(step, state, s)
    ensures NeverRejects(step, state, s[..k])
    decreases k
  {
    if k > 0 {
      PrefixNeverRejects(step, step(state, s[0]), s[1..], k - 1);
      assert s[..k][1..] == s[1..][..k - 1];
    }
  }

  /** The close code a decoded close frame reports for this payload. */
  function CloseCode(c: Settings, payload: seq<byte>): int {
    if |payload| == 0 then NORMAL
    else if |payload| == 1 then PROTOCOL_ERROR
    else if c.strict(payload[2..]) then payload[0] * 256 + payload[1]
    else NO_UTF8
  }

  /** None when the reason is not UTF-8: the Java field is then null. */
  function CloseReason(c: Settings, payload: seq<byte>): Option<seq<byte>> {
    if |payload| <= 1 then Some([])
    else if c.strict(payload[2..]) then Some(payload[2..])
    else None
  }

  /** updatePayload: the two low bytes of the code, and the reason. */
  function ClosePayload(code: nat, reason: seq<byte>): seq<byte> {
    BigEndian(code, 2) + reason
  }

  /** CloseFrame.isValid, after the checks shared by all control frames. */
  function CloseProblem(c: Settings, payload: seq<byte>): Option<Error> {
    var reason := CloseReason(c, payload);
    if reason.None? then Some(Crash) else CodeProblem(CloseCode(c, payload), reason.value != [])
  }

  /** Its part for a code, with or without a reason. */
  function CodeProblem(code: int, reason: bool): Option<Error> {
    if code == NO_UTF8 && !reason then Some(NoUtf8)
    else if code == NOCODE && reason then Some(Protocol)
    else if TLS_ERROR < code < 3000 then Some(Protocol)
    else if code == ABNORMAL_CLOSE || code == TLS_ERROR || code == NOCODE || code > 4999
            || code < 1000 || code == 1004 then Some(InvalidFrame)
    else None
  }

  /** isValid of the frame class chosen by the opcode. */
  function Problem(c: Settings, f: Frame): Option<Error> {
    if IsControl(f.opcode) && !f.fin then Some(InvalidFrame)
    else if f.opcode == Closing then CloseProblem(c, f.payload)
    else if f.opcode == Text && !ValidUtf8(c, f.payload) then Some(NoUtf8)
    else None
  }

  // ---------------------------------------------------------------- writing

  function Mask(key: seq<byte>, s: seq<byte>): (m: seq<byte>)
    requires |key| == 4
    ensures |m| == |s|
  {
    seq(|s|, i requires 0 <= i < |s| => Xor(s[i], key[i % 4]))
  }

  lemma {:induction false} MaskTwice(key: seq<byte>, s: seq<byte>)
    requires |key| == 4
    ensures Mask(key, Mask(key, s)) == s
  {
    forall i | 0 <= i < |s| ensures Mask(key, Mask(key, s))[i] == s[i] {
      XorIsByte(s[i], key[i % 4]);
    }
  }

  function SizeBytes(length: nat): (n: nat) {
    if length <= 125 then 1 else if length <= 65535 then 2 else 8
  }

  /** Second byte and extended length, with the mask bit `maskBit`. */
  function LengthField(length: nat, maskBit: int): (s: seq<byte>)
    requires maskBit == 0 || maskBit == 128
  {
    if SizeBytes(length) == 1 then [length + maskBit]
    else if SizeBytes(length) == 2 then [126 + maskBit] + BigEndian(length, 2)
    else [127 + maskBit] + BigEndian(length, 8)
  }

  predicate IsKey(key: Option<seq<byte>>) {
    key.Some? ==> |key.value| == 4
  }

  function FirstByte(f: Frame): byte {
    (if f.fin then 128 else 0) + FromOpcode(f.opcode)
  }

  function MaskBit(key: Option<seq<byte>>): (m: int)
    ensures m == 0 || m == 128
  {
    if key.Some? then 128 else 0
  }

  /** The masking key, if any, and the payload as it travels. */
  function Body(f: Frame, key: Option<seq<byte>>): (s: seq<byte>)
    requires IsKey(key)
    ensures |s| == |f.payload| + (if key.Some? then 4 else 0)
  {
    if key.Some? then key.value + Mask(key.value, f.payload) else f.payload
  }

  /** The bytes of a frame; a client passes the key it drew, a server None. */
  function Encode(f: Frame, key: Option<seq<byte>>): (s: seq<byte>)
    requires IsKey(key)
  {
    [FirstByte(f)] + LengthField(|f.payload|, MaskBit(key)) + Body(f, key)
  }

  // ---------------------------------------------------------------- reading

  datatype Length =
    | Known(length: nat, header: nat)
    | MoreForLength(preferred: nat)
    | BadLength(error: Error)

  function SignedLong(s: seq<byte>): int
    requires |s| == 8
  {
    if Value(s) >= TWO_63 then Value(s) - TWO_64 else Value(s)
  }

  function LimitProblem(c: Settings, length: int): Option<Error> {
    if length > INT_MAX then Some(LimitExceeded(INT_MAX))
    else if length > c.maxFrameSize then Some(LimitExceeded(c.maxFrameSize))
    else if length < 0 then Some(LimitExceeded(INT_MAX))
    else None
  }

  /** The payload length and the bytes before mask and payload. */
  function ReadLength(c: Settings, b: seq<byte>, op: Opcode): Length
    requires |b| >= 2
  {
    var len7 := b[1] % 128;
    if len7 <= 125 then Checked(c, len7, 2)
    else if IsControl(op) then BadLength(InvalidFrame)
    else if len7 == 126 then
      if |b| < 4 then MoreForLength(4) else Checked(c, Value(b[2..4]), 4)
    else
      if |b| < 10 then MoreForLength(10) else Checked(c, SignedLong(b[2..10]), 10)
  }

  function Checked(c: Settings, length: int, header: nat): Length {
    var p := LimitProblem(c, length);
    if p.Some? then BadLength(p.value) else Known(length, header)
  }

  function Masked(b: seq<byte>): bool
    requires |b| >= 2
  {
    b[1] >= 128
  }

  /** Whole size of the frame whose header is at the start of `b`, as a mathematical number. */
  function RealSize(b: seq<byte>, length: nat, header: nat): nat
    requires |b| >= 2
  {
    header + (if Masked(b) then 4 else 0) + length
  }

  /**
   * translateSingleFrame on the bytes `b`. A real size beyond the int range wraps around in
   * Java, so the size check passes and reading past the buffer throws: a Crash.
   */
  function Translate(c: Settings, b: seq<byte>): Single {
    if |b| < 2 then NeedMore(2)
    else
      var op := ToOpcode(b[0] % 16);
      if op.None? then Failed(InvalidFrame)
      else
        match ReadLength(c, b, op.value)
        case BadLength(e) => Failed(e)
        case MoreForLength(n) => NeedMore(n)
        case Known(length, header) => AfterLength(c, b, op.value, length, header)
  }

  function AfterLength(c: Settings, b: seq<byte>, op: Opcode, length: nat, header: nat): Single
    requires |b| >= 2
  {
    var size := RealSize(b, length, header);
    if size > INT_MAX then Failed(Crash)
    else if |b| < size then NeedMore(size)
    else Finish(c, b, op, Payload(b, length, header), size)
  }

  function Payload(b: seq<byte>, length: nat, header: nat): (p: seq<byte>)
    requires |b| >= 2 && RealSize(b, length, header) <= |b|
  {
    if Masked(b) then Mask(b[header..header + 4], b[header + 4..header + 4 + length])
    else b[header..header + length]
  }

  /** The extension refuses reserved bits, then the frame checks itself. */
  function Finish(c: Settings, b: seq<byte>, op: Opcode, payload: seq<byte>, size: nat): Single
    requires |b| >= 2
  {
    var f := Frame(b[0] >= 128, op, payload);
    if b[0] / 16 % 8 != 0 then Failed(InvalidFrame)
    else if Problem(c, f).Some? then Failed(Problem(c, f).value)
    else Done(f, size)
  }

  // ---------------------------------------------------------------- laws

  lemma OpcodeRoundTrip(op: Opcode)
    ensures ToOpcode(FromOpcode(op)) == Some(op) && FromOpcode(op) < 16
  {}

  /** RFC 6455, section 5.2: the shortest of the three length forms is always used. */
  lemma {:induction false} ShortestLength(length: nat, maskBit: int)
    requires maskBit == 0 || maskBit == 128
    requires length < TWO_63
    ensures var s := LengthField(length, maskBit);
      s[0] / 128 == maskBit / 128 &&
      (s[0] % 128 <= 125 ==> |s| == 1 && s[0] % 128 == length) &&
      (s[0] % 128 == 126 ==> |s| == 3 && Value(s[1..]) == length && length > 125) &&
      (s[0] % 128 == 127 ==> |s| == 9 && Value(s[1..]) == length && length > 65535)
  {
    hide Value, BigEndian;
    var s := LengthField(length, maskBit);
    if |s| > 1 {
      var n := |s| - 1;
      assert s[1..] == BigEndian(length, n);
      ValueOfBigEndian(length, n);
      Powers();
    }
  }

  lemma {:induction false} Powers()
    ensures Pow256(2) == 65536 && Pow256(8) == TWO_64
  {
    assert Pow256(2) == 256 * Pow256(1);
    assert Pow256(8) == 256 * 256 * Pow256(6);
    assert Pow256(6) == 256 * 256 * Pow256(4);
    assert Pow256(4) == 256 * 256 * Pow256(2);
  }

  /** Reading the length of an encoded frame: accepted exactly up to maxFrameSize. */
  lemma {:induction false} ReadEncodedLength(c: Settings, first: byte, length: nat, maskBit: int, tail: seq<byte>, op: Opcode)
    requires maskBit == 0 || maskBit == 128
    requires length < TWO_63
    requires IsControl(op) ==> length <= 125
    ensures ReadLength(c, [first] + LengthField(length, maskBit) + tail, op)
         == Checked(c, length, 1 + |LengthField(length, maskBit)|)
  {
    var s := LengthField(length, maskBit);
    var b := [first] + s + tail;
    ShortestLength(length, maskBit);
    assert b[1] == s[0];
    if |s| == 3 { assert b[2..4] == s[1..]; }
    if |s| == 9 { assert b[2..10] == s[1..]; }
  }

  lemma {:induction false} FirstByteFields(f: Frame)
    ensures var b := FirstByte(f);
      (b >= 128) == f.fin && ToOpcode(b % 16) == Some(f.opcode) && b / 16 % 8 == 0
  {
    OpcodeRoundTrip(f.opcode);
  }

  function HeaderSize(f: Frame): (n: nat) {
    1 + |LengthField(|f.payload|, 0)|
  }

  /** The two header bytes of an encoded frame, and the length read from them. */
  lemma {:induction false} EncodedHeader(c: Settings, f: Frame, key: Option<seq<byte>>, tail: seq<byte>)
    requires IsKey(key)
    requires IsControl(f.opcode) ==> |f.payload| <= 125
    requires |f.payload| < TWO_63
    ensures var b := Encode(f, key) + tail;
      |b| >= 2 && b[0] == FirstByte(f) && Masked(b) == key.Some? &&
      ReadLength(c, b, f.opcode) == Checked(c, |f.payload|, HeaderSize(f)) &&
      RealSize(b, |f.payload|, HeaderSize(f)) == |Encode(f, key)| <= |b|
  {
    var field := LengthField(|f.payload|, MaskBit(key));
    var b := Encode(f, key) + tail;
    assert b == [FirstByte(f)] + field + (Body(f, key) + tail);
    ReadEncodedLength(c, FirstByte(f), |f.payload|, MaskBit(key), Body(f, key) + tail, f.opcode);
    ShortestLength(|f.payload|, MaskBit(key));
    assert b[1] == field[0];
  }

  lemma {:induction false} PayloadOfEncoded(f: Frame, key: Option<seq<byte>>, tail: seq<byte>)
    requires IsKey(key)
    requires var b := Encode(f, key) + tail;
      |b| >= 2 && Masked(b) == key.Some? && RealSize(b, |f.payload|, HeaderSize(f)) <= |b|
    ensures Payload(Encode(f, key) + tail, |f.payload|, HeaderSize(f)) == f.payload
  {
    var header, n := HeaderSize(f), |f.payload|;
    var head := [FirstByte(f)] + LengthField(n, MaskBit(key));
    assert |head| == header;
    var b := Encode(f, key) + tail;
    if key.Some? {
      var masked := Mask(key.value, f.payload);
      assert b == head + key.value + (masked + tail);
      Middle(head, key.value, masked + tail);
      assert b == (head + key.value) + masked + tail;
      Middle(head + key.value, masked, tail);
      MaskTwice(key.value, f.payload);
    } else {
      Middle(head, f.payload, tail);
    }
  }

  lemma Middle(a: seq<byte>, m: seq<byte>, z: seq<byte>)
    ensures (a + m + z)[|a|..|a| + |m|] == m
  {}

  /**
   * The round trip. Whatever follows it, an encoded frame is read back exactly and only its
   * own bytes are consumed, if and only if it respects the size limits and passes isValid.
   */
  lemma {:induction false} RoundTrip(c: Settings, f: Frame, key: Option<seq<byte>>, tail: seq<byte>)
    requires IsKey(key)
    requires IsControl(f.opcode) ==> |f.payload| <= 125
    requires |f.payload| < TWO_63
    ensures var s := Encode(f, key);
      Translate(c, s + tail) == Done(f, |s|)
      <==> |f.payload| <= c.maxFrameSize && |s| <= INT_MAX && Problem(c, f).None?
  {
    FirstByteFields(f);
    EncodedHeader(c, f, key, tail);
    PayloadOfEncoded(f, key, tail);
    ReadGivenHeader(c, Encode(f, key) + tail, f, HeaderSize(f), |Encode(f, key)|);
  }

  /** A frame that the sender's isValid let pass is read back, or it is refused for its length alone. */
  lemma {:induction false} ReadOrTooLarge(c: Settings, f: Frame, key: Option<seq<byte>>, tail: seq<byte>)
    requires IsKey(key) && (IsControl(f.opcode) ==> |f.payload| <= 125)
    requires |f.payload| <= INT_MAX - 14 && Problem(c, f).None?
    ensures var s := Encode(f, key);
      Translate(c, s + tail) == if |f.payload| <= c.maxFrameSize then Done(f, |s|) else Failed(LimitExceeded(c.maxFrameSize))
  {
    RoundTrip(c, f, key, tail);
    FirstByteFields(f);
    EncodedHeader(c, f, key, tail);
  }

  lemma ReadGivenHeader(c: Settings, b: seq<byte>, f: Frame, header: nat, size: nat)
    requires |b| >= 2
    requires (b[0] >= 128) == f.fin && ToOpcode(b[0] % 16) == Some(f.opcode) && b[0] / 16 % 8 == 0
    requires ReadLength(c, b, f.opcode) == Checked(c, |f.payload|, header)
    requires RealSize(b, |f.payload|, header) == size <= |b|
    requires Payload(b, |f.payload|, header) == f.payload
    ensures Translate(c, b) == Done(f, size)
      <==> |f.payload| <= c.maxFrameSize && size <= INT_MAX && Problem(c, f).None?
  {}

  /** A size that is asked for was not there yet, and covers at least the two first bytes. */
  lemma PreferredIsLarger(c: Settings, b: seq<byte>)
    ensures var r := Translate(c, b);
      (r.NeedMore? ==> |b| < r.preferred <= INT_MAX) &&
      (r.Done? ==> 2 <= r.size <= |b| && r.size <= INT_MAX)
  {}

  /**
   * Prefix stability. More bytes never change a verdict already reached, and while a frame
   * stays unfinished its preferred size is a lower bound for whatever is read in the end.
   */
  lemma {:induction false} PrefixStable(c: Settings, b: seq<byte>, tail: seq<byte>)
    ensures var r := Translate(c, b);
      (!r.NeedMore? ==> Translate(c, b + tail) == r) &&
      (r.NeedMore? && |b + tail| < r.preferred ==> Translate(c, b + tail) == r) &&
      (r.NeedMore? && |b + tail| >= r.preferred ==>
        (Translate(c, b + tail).NeedMore? ==> Translate(c, b + tail).preferred > r.preferred) &&
        (Translate(c, b + tail).Done? ==> Translate(c, b + tail).size >= r.preferred))
  {
    var b' := b + tail;
    if |b| >= 2 {
      assert b'[0] == b[0] && b'[1] == b[1];
      if |b| >= 4 { assert b'[2..4] == b[2..4]; }
      if |b| >= 10 { assert b'[2..10] == b[2..10]; }
      var op := ToOpcode(b[0] % 16);
      if op.Some? {
        var l := ReadLength(c, b, op.value);
        if l.Known? { AfterLengthStable(c, b, tail, op.value, l.length, l.header); }
      }
    }
  }

  lemma {:induction false} AfterLengthStable(c: Settings, b: seq<byte>, tail: seq<byte>, op: Opcode, length: nat, header: nat)
    requires |b| >= 2
    ensures var r := AfterLength(c, b, op, length, header);
      var r' := AfterLength(c, b + tail, op, length, header);
      (!r.NeedMore? ==> r' == r) &&
      (r.NeedMore? ==> if |b + tail| < r.preferred then r' == r
                       else !r'.NeedMore? && (r'.Done? ==> r'.size == r.preferred))
  {
    assert (b + tail)[0] == b[0] && (b + tail)[1] == b[1];
    if RealSize(b, length, header) <= |b| {
      PayloadStable(b, tail, length, header);
    }
  }

  lemma {:induction false} PayloadStable(b: seq<byte>, tail: seq<byte>, length: nat, header: nat)
    requires |b| >= 2 && RealSize(b, length, header) <= |b|
    ensures RealSize(b + tail, length, header) == RealSize(b, length, header)
    ensures Payload(b + tail, length, header) == Payload(b, length, header)
  {
    var b' := b + tail;
    assert b'[1] == b[1];
    if Masked(b) {
      assert b'[header..header + 4] == b[header..header + 4];
      assert b'[header + 4..header + 4 + length] == b[header + 4..header + 4 + length];
    } else {
      assert b'[header..header + length] == b[header..header + length];
    }
  }
}
