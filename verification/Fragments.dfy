/** Fragmented messages (RFC 6455, section 5.4), from the pieces of the sender to the message received. */
module Fragments {
  import opened Bytes
  import opened Frames
  import opened Options
  import opened FrameStream
  import opened Seqs

  // What the receiver does with one frame, what the sender makes of one piece, and the end-to-end theorem.

  /** What a frame makes the receiver report to its listener. */
  datatype Event =
    | GotText(data: seq<byte>)
    | GotBinary(data: seq<byte>)
    | GotPing(data: seq<byte>)
    | GotPong(data: seq<byte>)
    | GotClose(code: int, reason: seq<byte>)

  /** currentContinuousFrame (its opcode) and byteBufferList. */
  datatype Reassembly = Reassembly(current: Option<Opcode>, parts: seq<seq<byte>>)

  const Idle := Reassembly(None, [])

  datatype Step = Step(state: Reassembly, events: seq<Event>, error: Option<Error>)

  // ---------------------------------------------------------------- receiver

  function Deliver(c: Settings, op: Opcode, data: seq<byte>): Option<Event> {
    if op == Text then (if c.strict(data) then Some(GotText(data)) else None)
    else Some(GotBinary(data))
  }

  /** processFrame on one frame that came out of translateFrame. */
  function Process(c: Settings, st: Reassembly, f: Frame): (s: Step)
    ensures s.error != Some(Crash)
  {
    match f.opcode
    case Closing =>
      var reason := CloseReason(c, f.payload);
      Step(st, [GotClose(CloseCode(c, f.payload), if reason.Some? then reason.value else [])], None)
    case Ping => Step(st, [GotPing(f.payload)], None)
    case Pong => Step(st, [GotPong(f.payload)], None)
    case Continuous => if f.fin then LastPart(c, st, f.payload) else MiddlePart(st, f.payload)
    case _ => if f.fin then WholeMessage(c, st, f) else FirstPart(c, st, f)
  }

  function WholeMessage(c: Settings, st: Reassembly, f: Frame): Step {
    if st.current.Some? then Step(st, [], Some(Protocol))
    else
      var event := Deliver(c, f.opcode, f.payload);
      if event.None? then Step(st, [], Some(NoUtf8)) else Step(st, [event.value], None)
  }

  function FirstPart(c: Settings, st: Reassembly, f: Frame): Step {
    if st.current.Some? then Step(st, [], Some(Protocol))
    else
      var parts := st.parts + [f.payload];
      if |Concat(parts)| > c.maxFrameSize then
        Step(Reassembly(Some(f.opcode), []), [], Some(LimitExceeded(c.maxFrameSize)))
      else if f.opcode == Text && !ValidUtf8(c, f.payload) then
        Step(Reassembly(Some(f.opcode), parts), [], Some(NoUtf8))
      else Step(Reassembly(Some(f.opcode), parts), [], None)
  }

  /** The limit is not checked here, only at the first and at the last part. */
  function MiddlePart(st: Reassembly, payload: seq<byte>): Step {
    if st.current.None? then Step(st, [], Some(Protocol))
    else Step(Reassembly(st.current, st.parts + [payload]), [], None)
  }

  function LastPart(c: Settings, st: Reassembly, payload: seq<byte>): Step {
    if st.current.None? then Step(st, [], Some(Protocol))
    else
      var parts := st.parts + [payload];
      var data := Concat(parts);
      if |data| > c.maxFrameSize then
        Step(Reassembly(st.current, []), [], Some(LimitExceeded(c.maxFrameSize)))
      else if st.current == Some(Text) && !ValidUtf8(c, data) then
        Step(Reassembly(st.current, parts), [], Some(NoUtf8))
      else
        var event := Deliver(c, st.current.value, data);
        if event.None? then Step(Reassembly(st.current, parts), [], Some(NoUtf8))
        else Step(Idle, [event.value], None)
  }

  /** The loop of decodeFrames over the frames of one call: it stops at the first error. */
  function ProcessAll(c: Settings, st: Reassembly, frames: seq<Frame>): Step
    decreases |frames|
  {
    if frames == [] then Step(st, [], None)
    else
      var s := Process(c, st, frames[0]);
      if s.error.Some? then s
      else
        var t := ProcessAll(c, s.state, frames[1..]);
        Step(t.state, s.events + t.events, t.error)
  }

  lemma {:induction false} ProcessInTwoParts(c: Settings, st: Reassembly, a: seq<Frame>, b: seq<Frame>)
    ensures var s := ProcessAll(c, st, a);
      ProcessAll(c, st, a + b) ==
        (if s.error.Some? then s
         else var t := ProcessAll(c, s.state, b); Step(t.state, s.events + t.events, t.error))
    decreases |a|
  {
    if a == [] {
      assert a + b == b;
    } else {
      assert (a + b)[1..] == a[1..] + b;
      var s := Process(c, st, a[0]);
      if s.error.None? {
        ProcessInTwoParts(c, s.state, a[1..], b);
      }
    }
  }

  // ---------------------------------------------------------------- no oversized message

  predicate Small(c: Settings, e: Event) {
    (e.GotText? || e.GotBinary?) ==>
      |e.data| <= c.maxFrameSize && (e.GotText? ==> c.strict(e.data) && ValidUtf8(c, e.data))
  }

  /** Whatever frames come out of a decoder, every delivered message is within maxFrameSize. */
  lemma {:induction false} DeliveredWithinLimit(c: Settings, st: Reassembly, frames: seq<Frame>)
    requires forall f :: f in frames ==> |f.payload| <= c.maxFrameSize && Problem(c, f).None?
    requires st.current.Some? ==> st.current.value == Text || st.current.value == Binary
    ensures forall e :: e in ProcessAll(c, st, frames).events ==> Small(c, e)
    decreases |frames|
  {
    if frames != [] {
      assert frames[0] in frames;
      var s := Process(c, st, frames[0]);
      if s.error.None? {
        DeliveredWithinLimit(c, s.state, frames[1..]);
      }
    }
  }

  // ---------------------------------------------------------------- which frames make up a message

  /** Exactly the frames that are out of order are refused as such (section 5.4). */
  lemma OutOfOrder(c: Settings, st: Reassembly, f: Frame)
    ensures Process(c, st, f).error == Some(Protocol) <==> !IsControl(f.opcode) && (f.opcode == Continuous <==> st.current == None)
  {}

  function DataFrames(frames: seq<Frame>): seq<Frame> {
    if frames == [] then []
    else (if IsControl(frames[0].opcode) then [] else [frames[0]]) + DataFrames(frames[1..])
  }

  function Payloads(frames: seq<Frame>): seq<seq<byte>> {
    seq(|frames|, i requires 0 <= i < |frames| => frames[i].payload)
  }

  /** The frames of one message so far: a first one and its continuations. */
  predicate IsBegun(fs: seq<Frame>) {
    && fs != [] && (fs[0].opcode == Text || fs[0].opcode == Binary)
    && (forall i :: 0 < i < |fs| ==> fs[i].opcode == Continuous)
    && forall i :: 0 <= i < |fs| - 1 ==> !fs[i].fin
  }

  /** The whole message: the last of its frames is marked, and the payloads together are its data. */
  predicate IsMessage(fs: seq<Frame>, e: Event) {
    && IsBegun(fs) && fs[|fs| - 1].fin
    && e == (if fs[0].opcode == Text then GotText(Concat(Payloads(fs))) else GotBinary(Concat(Payloads(fs))))
  }

  /** The fields hold the fragments of a message that has begun, and nothing otherwise. */
  predicate Holds(st: Reassembly, open: seq<Frame>) {
    if open == [] then st == Idle
    else IsBegun(open) && !open[|open| - 1].fin && st == Reassembly(Some(open[0].opcode), Payloads(open))
  }

  predicate AreMessages(groups: seq<seq<Frame>>, events: seq<Event>) {
    |groups| == |events| && forall i :: 0 <= i < |groups| ==> IsMessage(groups[i], events[i])
  }

  lemma {:induction false} PayloadsMore(open: seq<Frame>, f: Frame)
    ensures Payloads(open + [f]) == Payloads(open) + [f.payload]
  {
    assert Payloads(open + [f])[..|open|] == Payloads(open);
  }

  lemma {:induction false} OneData(f: Frame)
    ensures DataFrames([f]) == if IsControl(f.opcode) then [] else [f]
  {
    assert [f][1..] == [];
  }

  /** A fragment that is not the last one. */
  lemma {:induction false} OneFragment(c: Settings, st: Reassembly, open: seq<Frame>, f: Frame)
    requires Holds(st, open) && Process(c, st, f).error.None? && !IsControl(f.opcode) && !f.fin
    ensures Holds(Process(c, st, f).state, open + [f]) && Process(c, st, f).events == []
  {
    PayloadsMore(open, f);
    assert [] + [f.payload] == [f.payload] && [] + [f] == [f];
    assert (open + [f])[0].opcode == if open == [] then f.opcode else open[0].opcode;
  }

  /** The last fragment, or a whole message. */
  lemma {:induction false} OneEnd(c: Settings, st: Reassembly, open: seq<Frame>, f: Frame)
    requires Holds(st, open) && Process(c, st, f).error.None? && !IsControl(f.opcode) && f.fin
    ensures var s := Process(c, st, f);
      s.state == Idle && |s.events| == 1 && IsMessage(open + [f], s.events[0])
  {
    PayloadsMore(open, f);
    if open == [] {
      ConcatOne(f.payload);
      assert [] + [f] == [f] && Payloads([]) == [];
      assert Payloads([f]) == [f.payload];
    }
    assert (open + [f])[0].opcode == if open == [] then f.opcode else open[0].opcode;
  }

  lemma {:induction false} OneMessage(fs: seq<Frame>, e: Event)
    requires IsMessage(fs, e)
    ensures Messages([e]) == [e]
  {
    assert [e][1..] == [];
  }

  /** One frame: it continues the message that has begun, or begins one, and perhaps ends it. */
  lemma {:induction false} OneFrame(c: Settings, st: Reassembly, open: seq<Frame>, f: Frame) returns (groups: seq<seq<Frame>>, left: seq<Frame>)
    requires Holds(st, open) && Process(c, st, f).error.None?
    ensures open + DataFrames([f]) == Concat(groups) + left && Holds(Process(c, st, f).state, left)
    ensures AreMessages(groups, Messages(Process(c, st, f).events))
  {
    var s := Process(c, st, f);
    OneData(f);
    if IsControl(f.opcode) {
      groups, left := [], open;
      assert open + [] == [] + open;
    } else if f.fin {
      hide Process, Holds, IsMessage;
      OneEnd(c, st, open, f);
      groups, left := [open + [f]], [];
      ConcatOne(open + [f]);
      assert s.events == [s.events[0]] && s.events[1..] == [];
      OneMessage(open + [f], s.events[0]);
    } else {
      hide Process, Holds, IsMessage;
      OneFragment(c, st, open, f);
      groups, left := [], open + [f];
      assert [] + left == left;
    }
  }

  /**
   * Which messages are delivered, whatever frames are processed without an error: the data frames
   * are one message after the other, each a first frame and its continuations up to the one that is
   * marked, and these messages are delivered in order; what follows them is kept in the fields.
   */
  lemma {:induction false} DeliveredMessages(c: Settings, st: Reassembly, open: seq<Frame>, frames: seq<Frame>)
    returns (groups: seq<seq<Frame>>, left: seq<Frame>)
    requires Holds(st, open) && ProcessAll(c, st, frames).error.None?
    ensures open + DataFrames(frames) == Concat(groups) + left && Holds(ProcessAll(c, st, frames).state, left)
    ensures AreMessages(groups, Messages(ProcessAll(c, st, frames).events))
    decreases |frames|
  {
    hide Process, Holds, AreMessages, Messages;
    groups, left := [], open;
    if frames == [] {
      NoMessages();
      assert open + [] == [] + open;
    } else {
      var s := Process(c, st, frames[0]);
      var first, begun := OneFrame(c, st, open, frames[0]);
      var more;
      more, left := DeliveredMessages(c, s.state, begun, frames[1..]);
      groups := first + more;
      ConcatAppend(first, more);
      MessagesConcat(s.events, ProcessAll(c, s.state, frames[1..]).events);
      BothAreMessages(first, Messages(s.events), more, Messages(ProcessAll(c, s.state, frames[1..]).events));
      OneData(frames[0]);
      Regroup(open, DataFrames([frames[0]]), DataFrames(frames[1..]), Concat(first), begun, Concat(more), left);
    }
  }

  lemma BothAreMessages(a: seq<seq<Frame>>, x: seq<Event>, b: seq<seq<Frame>>, y: seq<Event>)
    requires AreMessages(a, x) && AreMessages(b, y)
    ensures AreMessages(a + b, x + y)
  {}

  lemma {:induction false} Regroup<T>(open: seq<T>, d: seq<T>, e: seq<T>, first: seq<T>, begun: seq<T>, more: seq<T>, left: seq<T>)
    requires open + d == first + begun && begun + e == more + left
    ensures open + (d + e) == first + more + left
  {
    assert open + (d + e) == (open + d) + e;
    assert first + begun + e == first + (begun + e);
    assert first + (more + left) == first + more + left;
  }

  lemma NoMessages()
    ensures Messages([]) == [] && AreMessages([], [])
  {}

  // ---------------------------------------------------------------- sender

  /** continuousFrame: the new continuousFrameType and the frame, or IllegalArgumentException. */
  datatype Sent = Sent(kind: Option<Opcode>, frame: Option<Frame>)

  function Piece(c: Settings, kind: Option<Opcode>, op: Opcode, payload: seq<byte>, fin: bool): Sent {
    if op != Binary && op != Text then Sent(kind, None)
    else
      var f := Frame(fin, if kind.Some? then Continuous else op, payload);
      if Problem(c, f).Some? then Sent(Some(op), None)
      else Sent(if fin then None else Some(op), Some(f))
  }

  /** The frames of a message sent in pieces, fin on the last one. */
  function Pieces(c: Settings, kind: Option<Opcode>, op: Opcode, parts: seq<seq<byte>>): Option<seq<Frame>>
    decreases |parts|
  {
    if parts == [] then Some([])
    else
      var s := Piece(c, kind, op, parts[0], |parts| == 1);
      if s.frame.None? then None
      else
        var rest := Pieces(c, s.kind, op, parts[1..]);
        if rest.None? then None else Some([s.frame.value] + rest.value)
  }

  // ---------------------------------------------------------------- end to end

  predicate IsSmallPing(c: Settings, f: Frame) {
    (f.opcode == Ping || f.opcode == Pong) && f.fin && |f.payload| <= 125 && |f.payload| <= c.maxFrameSize
  }

  /** `mixed` is `data` with pings and pongs put in between, in any places. */
  predicate Interleaving(c: Settings, mixed: seq<Frame>, data: seq<Frame>)
    decreases |mixed|
  {
    if mixed == [] then data == []
    else if IsSmallPing(c, mixed[0]) then Interleaving(c, mixed[1..], data)
    else data != [] && mixed[0] == data[0] && Interleaving(c, mixed[1..], data[1..])
  }

  function Messages(events: seq<Event>): seq<Event> {
    if events == [] then []
    else if events[0].GotText? || events[0].GotBinary? then [events[0]] + Messages(events[1..])
    else Messages(events[1..])
  }

  lemma {:induction false} MessagesConcat(a: seq<Event>, b: seq<Event>)
    ensures Messages(a + b) == Messages(a) + Messages(b)
    decreases |a|
  {
    if a == [] {
      assert a + b == b;
    } else {
      assert (a + b)[1..] == a[1..] + b && (a + b)[0] == a[0];
      MessagesConcat(a[1..], b);
      assert [a[0]] + (Messages(a[1..]) + Messages(b)) == [a[0]] + Messages(a[1..]) + Messages(b);
    }
  }

  predicate Good(s: Step, message: Event) {
    s.error.None? && s.state == Idle && Messages(s.events) == [message]
  }

  function MessageOf(op: Opcode, data: seq<byte>): Event {
    if op == Text then GotText(data) else GotBinary(data)
  }

  predicate Deliverable(c: Settings, op: Opcode, data: seq<byte>) {
    |data| <= c.maxFrameSize && (op == Text ==> ValidUtf8(c, data) && c.strict(data))
  }

  /** Why a message is refused. */
  function Refusal(c: Settings, data: seq<byte>): Error {
    if |data| > c.maxFrameSize then LimitExceeded(c.maxFrameSize) else NoUtf8
  }

  /** What has come of a message by now: nothing yet, all of it once, or its refusal. */
  predicate Arrives(c: Settings, op: Opcode, data: seq<byte>, s: Step, whole: bool) {
    match s.error
    case Some(e) => !Deliverable(c, op, data) && e == Refusal(c, data) && Messages(s.events) == []
    case None =>
      if whole then Deliverable(c, op, data) && s.state == Idle && Messages(s.events) == [MessageOf(op, data)]
      else Messages(s.events) == [] || (Deliverable(c, op, data) && Messages(s.events) == [MessageOf(op, data)])
  }

  lemma {:induction false} OnlyPings(c: Settings, mixed: seq<Frame>, got: seq<Frame>)
    requires Interleaving(c, mixed, []) && got <= mixed
    ensures var s := ProcessAll(c, Idle, got);
      s.error.None? && s.state == Idle && Messages(s.events) == []
    decreases |got|
  {
    if got != [] {
      OnlyPings(c, mixed[1..], got[1..]);
      MessagesConcat(Process(c, Idle, got[0]).events, ProcessAll(c, Idle, got[1..]).events);
    }
  }

  /** A frame that tells nothing of the message goes before the others. */
  lemma {:induction false} ArrivesLater(c: Settings, op: Opcode, data: seq<byte>, st: Reassembly, got: seq<Frame>, whole: bool)
    requires got != []
    requires var s := Process(c, st, got[0]);
      s.error.None? && Messages(s.events) == [] && Arrives(c, op, data, ProcessAll(c, s.state, got[1..]), whole)
    ensures Arrives(c, op, data, ProcessAll(c, st, got), whole)
  {
    hide Process, Deliverable, Refusal;
    var s := Process(c, st, got[0]);
    MessagesConcat(s.events, ProcessAll(c, s.state, got[1..]).events);
  }

  /** What the last frame of the message leads to. */
  predicate Completes(c: Settings, op: Opcode, data: seq<byte>, s: Step) {
    match s.error
    case Some(e) => !Deliverable(c, op, data) && e == Refusal(c, data) && s.events == []
    case None => Deliverable(c, op, data) && s.state == Idle && s.events == [MessageOf(op, data)]
  }

  /** Behind the last frame of the message there are only pings and pongs. */
  lemma {:induction false} ArrivesNow(c: Settings, op: Opcode, data: seq<byte>, st: Reassembly, mixed: seq<Frame>, got: seq<Frame>)
    requires op == Text || op == Binary
    requires got != [] && got <= mixed && Interleaving(c, mixed[1..], [])
    requires Completes(c, op, data, Process(c, st, got[0]))
    ensures Arrives(c, op, data, ProcessAll(c, st, got), got == mixed)
  {
    hide Process, Deliverable, Refusal;
    var s := Process(c, st, got[0]);
    OnlyPings(c, mixed[1..], got[1..]);
    MessagesConcat(s.events, ProcessAll(c, s.state, got[1..]).events);
    assert Messages([MessageOf(op, data)]) == [MessageOf(op, data)];
  }

  lemma {:induction false} LastCompletes(c: Settings, op: Opcode, done: seq<seq<byte>>, payload: seq<byte>)
    requires op == Text || op == Binary
    ensures Completes(c, op, Concat(done + [payload]), Process(c, Reassembly(Some(op), done), Frame(true, Continuous, payload)))
  {
    hide NeverRejects;
    assert (done + [payload])[|done|] == payload;
  }

  lemma {:induction false} WholeCompletes(c: Settings, op: Opcode, payload: seq<byte>)
    requires op == Text || op == Binary
    requires Problem(c, Frame(true, op, payload)).None? && |payload| <= c.maxFrameSize
    ensures Completes(c, op, payload, Process(c, Idle, Frame(true, op, payload)))
  {
    hide NeverRejects;
    assert Deliver(c, op, payload).None? <==> op == Text && !c.strict(payload);
  }

  /** The first piece waits for the others. */
  lemma {:induction false} FirstWaits(c: Settings, op: Opcode, payload: seq<byte>)
    requires op == Text || op == Binary
    requires Problem(c, Frame(false, op, payload)).None? && |payload| <= c.maxFrameSize
    ensures Process(c, Idle, Frame(false, op, payload)) == Step(Reassembly(Some(op), [payload]), [], None)
  {
    ConcatOne(payload);
    assert [] + [payload] == [payload];
  }

  /** The middle of the argument: parts already collected, the remaining pieces still to come, `got` of them here. */
  lemma {:induction false} PiecesArrive(c: Settings, op: Opcode, done: seq<seq<byte>>,
                                        parts: seq<seq<byte>>, mixed: seq<Frame>, got: seq<Frame>)
    requires op == Text || op == Binary
    requires done != [] && parts != []
    requires Pieces(c, Some(op), op, parts).Some?
    requires Interleaving(c, mixed, Pieces(c, Some(op), op, parts).value) && got <= mixed
    ensures Arrives(c, op, Concat(done + parts), ProcessAll(c, Reassembly(Some(op), done), got), got == mixed)
    decreases |got|
  {
    hide Deliverable, NeverRejects, Completes;
    if got != [] {
      var st := Reassembly(Some(op), done);
      if IsSmallPing(c, got[0]) {
        PiecesArrive(c, op, done, parts, mixed[1..], got[1..]);
        ArrivesLater(c, op, Concat(done + parts), st, got, got == mixed);
      } else if |parts| == 1 {
        assert done + [parts[0]] == done + parts;
        LastCompletes(c, op, done, parts[0]);
        ArrivesNow(c, op, Concat(done + parts), st, mixed, got);
      } else {
        assert (done + [parts[0]]) + parts[1..] == done + parts;
        PiecesArrive(c, op, done + [parts[0]], parts[1..], mixed[1..], got[1..]);
        ArrivesLater(c, op, Concat(done + parts), st, got, got == mixed);
      }
    }
  }

  /** decodeFrames on the successive reads of a connection; nothing is read after an error. */
  function Receive(c: Settings, pending: seq<byte>, st: Reassembly, chunks: seq<seq<byte>>): Step
    decreases |chunks|
  {
    if chunks == [] then Step(st, [], None)
    else
      match ParseAll(c, pending + chunks[0])
      case Broken(e) => Step(st, [], Some(e))
      case Parsed(frames, rest) =>
        var s := ProcessAll(c, st, frames);
        if s.error.Some? then s
        else
          var t := Receive(c, rest, s.state, chunks[1..]);
          Step(t.state, s.events + t.events, t.error)
  }

  /** How many reads there are before the first one whose bytes cannot be parsed. */
  function ReadsBefore(c: Settings, pending: seq<byte>, chunks: seq<seq<byte>>): (n: nat)
    ensures n <= |chunks|
    decreases |chunks|
  {
    if chunks == [] then 0
    else
      match ParseAll(c, pending + chunks[0])
      case Broken(_) => 0
      case Parsed(_, rest) => 1 + ReadsBefore(c, rest, chunks[1..])
  }

  /** Everything up to a number of reads can be parsed, and nothing that goes on to the end of the next read. */
  lemma {:induction false} ReadsBeforeBroken(c: Settings, pending: seq<byte>, chunks: seq<seq<byte>>)
    requires ParseAll(c, pending) == Parsed([], pending)
    ensures var n := ReadsBefore(c, pending, chunks);
      && ParseAll(c, pending + Concat(chunks[..n])).Parsed?
      && (n < |chunks| ==>
        && ParseAll(c, pending + Concat(chunks)).Broken?
        && ParseAll(c, pending + Concat(chunks[..n + 1])) == ParseAll(c, pending + Concat(chunks)))
    decreases |chunks|
  {
    hide Translate;
    var n := ReadsBefore(c, pending, chunks);
    if n == 0 {
      assert pending + Concat(chunks[..0]) == pending;
    } else {
      StreamStarts(c, pending, chunks, n);
    }
    if chunks != [] {
      StreamStarts(c, pending, chunks, if n < |chunks| then n + 1 else n);
      StreamStarts(c, pending, chunks, |chunks|);
      RestIsUnfinished(c, pending + chunks[0]);
      var p := ParseAll(c, pending + chunks[0]);
      if p.Parsed? { ReadsBeforeBroken(c, p.rest, chunks[1..]); }
    }
  }

  /** The bytes of the first reads: those of the first one, and what follows it. */
  lemma {:induction false} StreamStarts(c: Settings, pending: seq<byte>, chunks: seq<seq<byte>>, n: nat)
    requires 0 < n <= |chunks|
    ensures var p, all := ParseAll(c, pending + chunks[0]), ParseAll(c, pending + Concat(chunks[..n]));
      all == (if p.Broken? then p else Prepend(p.frames, ParseAll(c, p.rest + Concat(chunks[1..][..n - 1]))))
    ensures n == |chunks| ==> chunks[..n] == chunks && chunks[1..][..n - 1] == chunks[1..]
  {
    var tail := chunks[1..][..n - 1];
    assert chunks[..n][1..] == tail;
    assert pending + Concat(chunks[..n]) == (pending + chunks[0]) + Concat(tail);
    ParseContinues(c, pending + chunks[0], Concat(tail));
  }

  /**
   * What the listener is told, for every stream and every cut: the frames of all reads up to the
   * first one that cannot be parsed are processed as if they had been read at once, up to the first
   * error among them, and only if there is none, that read is the error. Without such a read
   * the cut is invisible.
   */
  lemma {:induction false} ReceiveAtOnce(c: Settings, pending: seq<byte>, st: Reassembly, chunks: seq<seq<byte>>)
    requires ParseAll(c, pending) == Parsed([], pending)
    ensures var n, all := ReadsBefore(c, pending, chunks), ParseAll(c, pending + Concat(chunks));
      && ParseAll(c, pending + Concat(chunks[..n])).Parsed? && (all.Parsed? <==> n == |chunks|)
      && var s := ProcessAll(c, st, ParseAll(c, pending + Concat(chunks[..n])).frames);
      Receive(c, pending, st, chunks) ==
        if s.error.None? && all.Broken? then Step(s.state, s.events, Some(all.error)) else s
    ensures var all := ParseAll(c, pending + Concat(chunks));
      all.Parsed? ==> Receive(c, pending, st, chunks) == ProcessAll(c, st, all.frames)
    decreases |chunks|
  {
    hide Process;
    ReadsBeforeBroken(c, pending, chunks);
    var n := ReadsBefore(c, pending, chunks);
    assert chunks[..|chunks|] == chunks;
    if chunks != [] { StreamStarts(c, pending, chunks, |chunks|); }
    if n == 0 {
      assert pending + Concat(chunks[..0]) == pending;
    } else {
      var head, tail := chunks[0], chunks[1..];
      StreamStarts(c, pending, chunks, n);
      RestIsUnfinished(c, pending + head);
      var p := ParseAll(c, pending + head);
      ReceiveAtOnce(c, p.rest, ProcessAll(c, st, p.frames).state, tail);
      ProcessInTwoParts(c, st, p.frames, ParseAll(c, p.rest + Concat(tail[..n - 1])).frames);
    }
  }

  lemma {:induction false} PiecesAcceptable(c: Settings, kind: Option<Opcode>, op: Opcode, parts: seq<seq<byte>>)
    requires op == Text || op == Binary
    requires Pieces(c, kind, op, parts).Some?
    requires forall p :: p in parts ==> |p| <= INT_MAX - 14
    ensures forall f :: f in Pieces(c, kind, op, parts).value ==> Sendable(c, f) && f.payload in parts && !IsControl(f.opcode)
    ensures (forall p :: p in parts ==> |p| <= c.maxFrameSize) ==>
      forall f :: f in Pieces(c, kind, op, parts).value ==> Acceptable(c, f)
    decreases |parts|
  {
    if parts != [] {
      assert parts[0] in parts;
      PiecesAcceptable(c, Piece(c, kind, op, parts[0], |parts| == 1).kind, op, parts[1..]);
    }
  }

  lemma {:induction false} MixedFrames(c: Settings, mixed: seq<Frame>, data: seq<Frame>)
    requires Interleaving(c, mixed, data)
    ensures forall f :: f in mixed ==> f in data || IsSmallPing(c, f)
    decreases |mixed|
  {
    if mixed != [] {
      assert forall f :: f in mixed ==> f == mixed[0] || f in mixed[1..];
      MixedFrames(c, mixed[1..], if IsSmallPing(c, mixed[0]) then data else data[1..]);
    }
  }

  lemma {:induction false} PartWithinConcat(parts: seq<seq<byte>>, p: seq<byte>)
    requires p in parts
    ensures |p| <= |Concat(parts)|
    decreases |parts|
  {
    if p != parts[0] { PartWithinConcat(parts[1..], p); }
  }

  /** Frames of the message have arrived, pings in between, at a receiver at rest: perhaps not yet all. */
  lemma {:induction false} MessageArrives(c: Settings, op: Opcode, parts: seq<seq<byte>>, mixed: seq<Frame>, got: seq<Frame>)
    requires op == Text || op == Binary
    requires parts != [] && Pieces(c, None, op, parts).Some?
    requires Interleaving(c, mixed, Pieces(c, None, op, parts).value) && got <= mixed
    requires forall f :: f in got ==> |f.payload| <= c.maxFrameSize
    ensures Arrives(c, op, Concat(parts), ProcessAll(c, Idle, got), got == mixed)
    decreases |got|
  {
    hide Deliverable, NeverRejects, Completes;
    if got != [] {
      var data := Concat(parts);
      if IsSmallPing(c, got[0]) {
        MessageArrives(c, op, parts, mixed[1..], got[1..]);
        ArrivesLater(c, op, data, Idle, got, got == mixed);
      } else if |parts| == 1 {
        assert parts == [parts[0]];
        ConcatOne(parts[0]);
        WholeCompletes(c, op, parts[0]);
        ArrivesNow(c, op, data, Idle, mixed, got);
      } else {
        assert parts == [parts[0]] + parts[1..];
        FirstWaits(c, op, parts[0]);
        PiecesArrive(c, op, [parts[0]], parts[1..], mixed[1..], got[1..]);
        ArrivesLater(c, op, data, Idle, got, got == mixed);
      }
    }
  }

  /** The frames of a message on their way, and the largest one. */
  lemma {:induction false} MessageSendable(c: Settings, op: Opcode, parts: seq<seq<byte>>, mixed: seq<Frame>)
    requires op == Text || op == Binary
    requires Pieces(c, None, op, parts).Some? && forall p :: p in parts ==> |p| <= INT_MAX - 14
    requires Interleaving(c, mixed, Pieces(c, None, op, parts).value)
    ensures forall i :: 0 <= i < |mixed| ==> Sendable(c, mixed[i]) && mixed[i].opcode != Closing
    ensures forall i :: 0 <= i < |mixed| && |mixed[i].payload| > c.maxFrameSize ==> |Concat(parts)| > c.maxFrameSize
  {
    var data := Pieces(c, None, op, parts).value;
    PiecesAcceptable(c, None, op, parts);
    MixedFrames(c, mixed, data);
    forall i | 0 <= i < |mixed|
      ensures Sendable(c, mixed[i]) && mixed[i].opcode != Closing
      ensures |mixed[i].payload| > c.maxFrameSize ==> |Concat(parts)| > c.maxFrameSize
    {
      assert mixed[i] in mixed;
      if mixed[i] in data { PartWithinConcat(parts, mixed[i].payload); }
    }
  }

  /** The frames of a message that are processed: all that are read, unless one of them is too large. */
  lemma {:induction false} FramesReceived(c: Settings, op: Opcode, parts: seq<seq<byte>>, mixed: seq<Frame>,
                 keys: seq<Option<seq<byte>>>, chunks: seq<seq<byte>>) returns (got: seq<Frame>)
    requires op == Text || op == Binary
    requires Pieces(c, None, op, parts).Some? && forall p :: p in parts ==> |p| <= INT_MAX - 14
    requires Interleaving(c, mixed, Pieces(c, None, op, parts).value)
    requires Keys(keys, |mixed|)
    requires Concat(chunks) == EncodeAll(mixed, keys)
    ensures got <= mixed && forall f :: f in got ==> |f.payload| <= c.maxFrameSize && f.opcode != Closing
    ensures var s, r := ProcessAll(c, Idle, got), Receive(c, [], Idle, chunks);
      if got == mixed then r == s
      else (r == s && s.error.Some?) || (r == Step(s.state, s.events, Some(LimitExceeded(c.maxFrameSize))) && |Concat(parts)| > c.maxFrameSize)
  {
    hide Receive, ProcessAll, Pieces, Interleaving, EncodeAll, ReadsBefore;
    var n := ReadsBefore(c, [], chunks);
    var a, b, stream := Concat(chunks[..n]), Concat(chunks[n..]), EncodeAll(mixed, keys);
    assert chunks == chunks[..n] + chunks[n..];
    ConcatAppend(chunks[..n], chunks[n..]);
    assert [] + a == a && [] + Concat(chunks) == stream && stream + [] == stream;
    ReceiveAtOnce(c, [], Idle, chunks);
    MessageSendable(c, op, parts, mixed);
    ParseArrived(c, mixed, keys, a, b);
    ParseArrived(c, mixed, keys, stream, []);
    ParsedFramesAreChecked(c, a);
    got := ParseAll(c, a).frames;
  }

  /**
   * End to end. A message cut into any pieces by continuousFrame, encoded with any keys, with
   * pings and pongs anywhere in between, and received in any chunks, is delivered exactly once
   * and whole, leaving no fragment behind, if and only if it respects the receiver's limit
   * and, for text, is UTF-8. Otherwise nothing is delivered, and the error says which of the two it is.
   */
  lemma {:induction false} EndToEnd(c: Settings, op: Opcode, parts: seq<seq<byte>>, mixed: seq<Frame>,
                 keys: seq<Option<seq<byte>>>, chunks: seq<seq<byte>>)
    requires op == Text || op == Binary
    requires parts != [] && Pieces(c, None, op, parts).Some?
    requires forall p :: p in parts ==> |p| <= INT_MAX - 14
    requires Interleaving(c, mixed, Pieces(c, None, op, parts).value)
    requires Keys(keys, |mixed|)
    requires Concat(chunks) == EncodeAll(mixed, keys)
    ensures Good(Receive(c, [], Idle, chunks), MessageOf(op, Concat(parts)))
      <==> Deliverable(c, op, Concat(parts))
    ensures !Deliverable(c, op, Concat(parts)) ==>
      var r := Receive(c, [], Idle, chunks); r.error == Some(Refusal(c, Concat(parts))) && Messages(r.events) == []
  {
    hide Receive, ProcessAll, Pieces, Interleaving, EncodeAll;
    var got := FramesReceived(c, op, parts, mixed, keys, chunks);
    MessageArrives(c, op, parts, mixed, got);
  }
}
