/** The receiving half of an open connection: from the bytes of the reads to what the listener is told. */
module Endpoint {
  import opened Bytes
  import opened CloseCodes
  import opened Draft6455
  import opened Fragments
  import opened Frames
  import opened FrameStream
  import opened Options
  import opened Seqs
  import C = Connection
  import W = Wire

  // ------------------------------------------------------------------ what a read amounts to

  /** getCloseCode. */
  function CodeOf(e: Error): int
    requires e != Crash
  {
    match e
    case NoUtf8 => NO_UTF8
    case LimitExceeded(_) => TOOBIG
    case _ => PROTOCOL_ERROR
  }

  /** An exception with or without a message, which becomes the reason of the close frame. */
  function Refused(e: Error, message: bool): C.Incoming
    requires e != Crash
  {
    C.Invalid(CodeOf(e), CodeProblem(CodeOf(e), message).None?, e.LimitExceeded? ==> e.limit == INT_MAX)
  }

  /** The events of one frame; `answers` is whether the listener answers pings, as that of WebSocketAdapter does. */
  function Heard(events: seq<Event>, answers: bool): C.Incoming {
    if events == [] then C.Part
    else
      match events[0]
      case GotClose(code, reason) => C.CloseIn(code, CodeProblem(code, reason != []).None?)
      case GotPing(_) => C.Ping(answers)
      case GotPong(_) => C.PongIn
      case _ => C.Complete(events[0])
  }

  /** Only the check of a first fragment of a text has no message. */
  function FrameIn(c: Settings, st: Reassembly, f: Frame, answers: bool): C.Incoming {
    var s := Process(c, st, f);
    if s.error.Some? then Refused(s.error.value, f.fin || f.opcode != Text) else Heard(s.events, answers)
  }

  /** The frames up to the first one that is refused. */
  function FramesIn(c: Settings, st: Reassembly, frames: seq<Frame>, answers: bool): seq<C.Incoming>
    decreases |frames|
  {
    if frames == [] then []
    else
      var s := Process(c, st, frames[0]);
      [FrameIn(c, st, frames[0], answers)] + if s.error.Some? then [] else FramesIn(c, s.state, frames[1..], answers)
  }

  /** One read: its frames, or the one error that refuses all of it. */
  function ReadIn(c: Settings, st: Reassembly, p: Parsed, answers: bool): seq<C.Incoming>
    requires p != Broken(Crash)
  {
    match p
    case Broken(e) => [Refused(e, true)]
    case Parsed(frames, _) => FramesIn(c, st, frames, answers)
  }

  /** The frame behind the first i. */
  lemma {:induction false} FramesInAt(c: Settings, st: Reassembly, frames: seq<Frame>, i: nat, answers: bool)
    requires i < |frames| && ProcessAll(c, st, frames[..i]).error.None?
    ensures var ins, s := FramesIn(c, st, frames, answers), ProcessAll(c, st, frames[..i]).state;
      i < |ins| && ins[i] == FrameIn(c, s, frames[i], answers)
    decreases i
  {
    if i > 0 {
      assert frames[..i][1..] == frames[1..][..i - 1];
      FramesInAt(c, Process(c, st, frames[0]).state, frames[1..], i - 1, answers);
    }
  }

  lemma {:induction false} FramesInAll(c: Settings, st: Reassembly, frames: seq<Frame>, answers: bool)
    requires ProcessAll(c, st, frames).error.None?
    ensures |FramesIn(c, st, frames, answers)| == |frames|
    decreases |frames|
  {
    if frames != [] { FramesInAll(c, Process(c, st, frames[0]).state, frames[1..], answers); }
  }

  // ------------------------------------------------------------------ decodeFrames

  /**
   * decodeFrames on the bytes of one read. What the connection does is what it does for the frames
   * and the error that these bytes amount to, and an unchecked exception leaves it as it was.
   */
  method DecodeFrames(impl: C.WebSocketImpl, draft: Draft, answers: bool, buffer: ByteBuffer)
    returns (crashed: bool, ghost trace: seq<C.View>)
    requires impl.Valid() && draft.Valid() && buffer.Valid()
    requires draft.incompleteframe != null ==> buffer != draft.incompleteframe && buffer.data != draft.incompleteframe.data
    modifies impl, draft, buffer`position, draft.Footprint()
    ensures impl.Valid() && draft.OwnOrFresh()
    ensures var c, st, p := draft.settings, old(draft.State()), ParseAll(draft.settings, old(draft.Pending() + buffer.After()));
      && crashed == (p == Broken(Crash))
      && (crashed ==> C.Seen(impl) == old(C.Seen(impl)))
      && (!crashed ==> C.Decoded(ReadIn(c, st, p, answers), trace, C.Seen(impl)) && trace[0] == old(C.Seen(impl)))
      && (p.Parsed? && impl.readyState == C.Open ==>
        && draft.Valid() && draft.Pending() == p.rest
        && var s := ProcessAll(c, st, p.frames); s.error == None && s.state == draft.State())
  {
    hide Translate, ParseAll, C.CloseDone, FramesIn, ProcessAll;
    var frames, error := draft.TranslateFrame(buffer);
    trace := [C.Seen(impl)];
    crashed := error == Some(Crash);
    if error.None? {
      trace := ProcessFrames(impl, draft, answers, frames);
    } else if !crashed {
      var r := Refused(error.value, true);
      impl.Refuse(r.code, r.valid, r.told);
    }
  }

  /** draft.processFrame: the reassembly of the draft, and what the connection does with its outcome. */
  method ProcessFrame(impl: C.WebSocketImpl, draft: Draft, answers: bool, f: Frame) returns (r: C.Processed)
    requires impl.Valid()
    modifies impl, draft`currentContinuousFrame, draft`byteBufferList
    ensures impl.Valid()
    ensures C.FrameDone(FrameIn(draft.settings, old(draft.State()), f, answers), old(C.Seen(impl)), C.Seen(impl), r)
    ensures var s := Process(draft.settings, old(draft.State()), f);
      draft.State() == s.state && (r.InvalidData? <==> s.error.Some?)
  {
    hide C.CloseDone, Process;
    var events, error := draft.ProcessFrame(f);
    if error.Some? {
      var refused := Refused(error.value, f.fin || f.opcode != Text);
      r := C.InvalidData(refused.code, refused.valid, refused.told);
    } else {
      r := impl.ProcessFrame(Heard(events, answers));
    }
  }

  /** The loop of decodeFrames. */
  method ProcessFrames(impl: C.WebSocketImpl, draft: Draft, answers: bool, frames: seq<Frame>) returns (ghost trace: seq<C.View>)
    requires impl.Valid()
    modifies impl, draft`currentContinuousFrame, draft`byteBufferList
    ensures impl.Valid()
    ensures C.Decoded(FramesIn(draft.settings, old(draft.State()), frames, answers), trace, C.Seen(impl))
    ensures trace[0] == old(C.Seen(impl))
    ensures impl.readyState == C.Open ==>
      var s := ProcessAll(draft.settings, old(draft.State()), frames); s.error == None && s.state == draft.State()
  {
    hide C.CloseDone, Process, FrameIn, FramesIn;
    ghost var c, st := draft.settings, draft.State();
    ghost var ins := FramesIn(c, st, frames, answers);
    trace := [C.Seen(impl)];
    for i := 0 to |frames|
      invariant impl.Valid() && |trace| == i + 1 <= |ins| + 1 && trace[0] == old(C.Seen(impl)) && trace[i] == C.Seen(impl)
      invariant var s := ProcessAll(c, st, frames[..i]); s.error == None && s.state == draft.State()
      invariant C.AllFine(ins, trace)
    {
      FramesInAt(c, st, frames, i, answers);
      ProcessNext(c, st, frames, i);
      var r := ProcessFrame(impl, draft, answers, frames[i]);
      if r.InvalidData? {
        impl.Refuse(r.code, r.valid, r.told);
        return;
      }
      if r.NotConnected? { return; }
      C.OneMoreFine(ins, trace, C.Seen(impl));
      trace := trace + [C.Seen(impl)];
    }
    assert frames[..|frames|] == frames;
    FramesInAll(c, st, frames, answers);
  }

  // ------------------------------------------------------------------ what the listener is told

  ghost predicate NoClose(events: seq<Event>) {
    forall i :: 0 <= i < |events| ==> !events[i].GotClose?
  }

  lemma {:induction false} NoCloseBoth(a: seq<Event>, b: seq<Event>)
    ensures NoClose(a + b) <==> NoClose(a) && NoClose(b)
  {
    if NoClose(a + b) {
      forall i | 0 <= i < |a| ensures !a[i].GotClose? { assert (a + b)[i] == a[i]; }
      forall i | 0 <= i < |b| ensures !b[i].GotClose? { assert (a + b)[|a| + i] == b[i]; }
    }
  }

  /** Messages are told, and pings are answered. */
  ghost function AfterEvent(v: C.View, e: Event, answers: bool): C.View {
    match e
    case GotText(_) => v.(notices := v.notices + [C.Message(e)])
    case GotBinary(_) => v.(notices := v.notices + [C.Message(e)])
    case GotPing(_) => if answers then v.(queue := v.queue + [C.Pong]) else v
    case _ => v
  }

  ghost function AfterEvents(v: C.View, events: seq<Event>, answers: bool): C.View
    decreases |events|
  {
    if events == [] then v else AfterEvents(AfterEvent(v, events[0], answers), events[1..], answers)
  }

  lemma {:induction false} AfterBoth(v: C.View, a: seq<Event>, b: seq<Event>, answers: bool)
    ensures AfterEvents(v, a + b, answers) == AfterEvents(AfterEvents(v, a, answers), b, answers)
    decreases |a|
  {
    if a == [] {
      assert a + b == b;
    } else {
      assert (a + b)[1..] == a[1..] + b;
      AfterBoth(AfterEvent(v, a[0], answers), a[1..], b, answers);
    }
  }

  lemma {:induction false} StaysOpen(v: C.View, events: seq<Event>, answers: bool)
    ensures AfterEvents(v, events, answers).state == v.state && AfterEvents(v, events, answers).hasDraft == v.hasDraft
    decreases |events|
  {
    if events != [] { StaysOpen(AfterEvent(v, events[0], answers), events[1..], answers); }
  }

  /** An open connection has told the events, and then it is closed for the error, if there is one. */
  ghost predicate Told(answers: bool, v: C.View, s: Step, w: C.View) {
    match s.error
    case None => w == AfterEvents(v, s.events, answers)
    case Some(e) => e != Crash && ClosedFor(e, AfterEvents(v, s.events, answers), w)
  }

  /** Its code goes into a close frame; the listener hears of the error unless it is a limit that was set. */
  ghost predicate ClosedFor(e: Error, v: C.View, w: C.View)
    requires e != Crash
  {
    C.CloseDone(CodeOf(e), true, false, v.(notices := C.Blamed(v.notices, e.LimitExceeded? ==> e.limit == INT_MAX)), w)
  }

  lemma {:induction false} DecodedTail(ins: seq<C.Incoming>, trace: seq<C.View>, w: C.View)
    requires C.Decoded(ins, trace, w) && |trace| > 1
    ensures ins != [] && C.FrameDone(ins[0], trace[0], trace[1], C.Fine) && C.Decoded(ins[1..], trace[1..], w)
  {
    hide C.CloseDone, C.FrameDone;
    assert C.FrameDone(ins[0], trace[0], trace[0 + 1], C.Fine);
    forall i | 0 <= i < |trace[1..]| - 1 ensures C.FrameDone(ins[1..][i], trace[1..][i], trace[1..][i + 1], C.Fine) {
      assert C.FrameDone(ins[i + 1], trace[i + 1], trace[i + 2], C.Fine);
    }
  }

  /** A frame that a decoder let pass, on an open connection. */
  lemma {:induction false} FrameTold(c: Settings, st: Reassembly, f: Frame, answers: bool, v: C.View)
    requires Problem(c, f).None? && v.state == C.Open && NoClose(Process(c, st, f).events)
    ensures var s, incoming := Process(c, st, f), FrameIn(c, st, f, answers);
      if s.error.Some? then
        && s.events == [] && incoming == Refused(s.error.value, true) && incoming.valid
        && incoming.code == match s.error.value case NoUtf8 => 1007 case LimitExceeded(_) => 1009 case _ => 1002
      else
        && !incoming.Invalid?
        && forall w, r :: C.FrameDone(incoming, v, w, r) ==> r == C.Fine && w == AfterEvents(v, s.events, answers)
  {
    var s := Process(c, st, f);
    if s.error.None? && s.events != [] { assert s.events == [s.events[0]] && s.events[1..] == []; }
  }

  /** The frames of one read on an open connection, without a close frame among them. */
  lemma {:induction false} FramesTold(c: Settings, st: Reassembly, frames: seq<Frame>, answers: bool, trace: seq<C.View>, w: C.View)
    requires forall f :: f in frames ==> Problem(c, f).None?
    requires C.Decoded(FramesIn(c, st, frames, answers), trace, w) && trace[0].state == C.Open
    requires NoClose(ProcessAll(c, st, frames).events)
    ensures Told(answers, trace[0], ProcessAll(c, st, frames), w)
    decreases |frames|
  {
    hide C.CloseDone, Process, FrameIn;
    if frames != [] {
      var s, v := Process(c, st, frames[0]), trace[0];
      var t := ProcessAll(c, s.state, frames[1..]);
      assert frames[0] in frames;
      if s.error.None? { NoCloseBoth(s.events, t.events); }
      FrameTold(c, st, frames[0], answers, v);
      if |trace| > 1 {
        DecodedTail(FramesIn(c, st, frames, answers), trace, w);
        if s.error.None? {
          StaysOpen(v, s.events, answers);
          FramesTold(c, s.state, frames[1..], answers, trace[1..], w);
          AfterBoth(v, s.events, t.events, answers);
        }
      }
    }
  }

  /** Any read on an open connection, unless it crashes. */
  lemma {:induction false} ReadTold(c: Settings, st: Reassembly, b: seq<byte>, answers: bool, trace: seq<C.View>, w: C.View)
    requires ParseAll(c, b) != Broken(Crash)
    requires C.Decoded(ReadIn(c, st, ParseAll(c, b), answers), trace, w) && trace[0].state == C.Open
    ensures match ParseAll(c, b)
      case Broken(e) => Told(answers, trace[0], Step(st, [], Some(e)), w) && w.state == C.Closing
      case Parsed(frames, _) =>
        NoClose(ProcessAll(c, st, frames).events) ==> Told(answers, trace[0], ProcessAll(c, st, frames), w)
  {
    ParsedFramesAreChecked(c, b);
    var p := ParseAll(c, b);
    if p.Parsed? && NoClose(ProcessAll(c, st, p.frames).events) { FramesTold(c, st, p.frames, answers, trace, w); }
  }

  // ------------------------------------------------------------------ all reads of a connection

  /** What is left of s when the events `heard` have been told: t. */
  ghost predicate Continues(s: Step, heard: seq<Event>, t: Step) {
    s == Step(t.state, heard + t.events, t.error)
  }

  /** Where the reads have got to: w is the connection now, `pending` and st what the draft keeps. */
  ghost predicate SoFar(c: Settings, answers: bool, v: C.View, s: Step, heard: seq<Event>, w: C.View,
                        pending: seq<byte>, st: Reassembly, chunks: seq<seq<byte>>) {
    Continues(s, heard, Receive(c, pending, st, chunks)) && (NoClose(s.events) ==> w == AfterEvents(v, heard, answers))
  }

  lemma {:induction false} StartOfReads(c: Settings, answers: bool, v: C.View, pending: seq<byte>, st: Reassembly, chunks: seq<seq<byte>>)
    ensures SoFar(c, answers, v, Receive(c, pending, st, chunks), [], v, pending, st, chunks)
  {
    var s := Receive(c, pending, st, chunks);
    assert [] + s.events == s.events;
  }

  lemma {:induction false} EndOfReads(c: Settings, answers: bool, v: C.View, s: Step, heard: seq<Event>, w: C.View,
                 pending: seq<byte>, st: Reassembly)
    requires SoFar(c, answers, v, s, heard, w, pending, st, [])
    ensures NoClose(s.events) ==> Told(answers, v, s, w)
  {
    assert heard + [] == heard;
  }

  lemma CrashEnds(c: Settings, answers: bool, v: C.View, s: Step, heard: seq<Event>, w: C.View,
                  pending: seq<byte>, st: Reassembly, chunks: seq<seq<byte>>)
    requires SoFar(c, answers, v, s, heard, w, pending, st, chunks)
    requires chunks != [] && ParseAll(c, pending + chunks[0]) == Broken(Crash)
    ensures s.error == Some(Crash)
  {}

  /** One more read. */
  lemma {:induction false} ReadOn(c: Settings, answers: bool, v: C.View, s: Step, heard: seq<Event>, u: C.View,
                 pending: seq<byte>, st: Reassembly, chunks: seq<seq<byte>>, trace: seq<C.View>, w: C.View)
    requires u.state == C.Open && chunks != [] && SoFar(c, answers, v, s, heard, u, pending, st, chunks)
    requires ParseAll(c, pending + chunks[0]) != Broken(Crash)
    requires C.Decoded(ReadIn(c, st, ParseAll(c, pending + chunks[0]), answers), trace, w) && trace[0] == u
    ensures var p := ParseAll(c, pending + chunks[0]);
      && (w.state == C.Open ==> p.Parsed?)
      && if p.Parsed? && ProcessAll(c, st, p.frames).error.None? then
           var t := ProcessAll(c, st, p.frames);
           SoFar(c, answers, v, s, heard + t.events, w, p.rest, t.state, chunks[1..]) && (NoClose(s.events) ==> w.state == C.Open)
         else NoClose(s.events) ==> Told(answers, v, s, w)
  {
    hide C.CloseDone, C.Decoded, ReadIn, ProcessAll, SoFar;
    var p := ParseAll(c, pending + chunks[0]);
    ReadTold(c, st, pending + chunks[0], answers, trace, w);
    if p.Parsed? && ProcessAll(c, st, p.frames).error.None? {
      ReadGoesOn(c, answers, v, s, heard, u, pending, st, chunks, w);
    } else {
      ReadEnds(c, answers, v, s, heard, u, pending, st, chunks, w);
    }
  }

  lemma {:induction false} ReadGoesOn(c: Settings, answers: bool, v: C.View, s: Step, heard: seq<Event>, u: C.View,
                 pending: seq<byte>, st: Reassembly, chunks: seq<seq<byte>>, w: C.View)
    requires u.state == C.Open && chunks != [] && SoFar(c, answers, v, s, heard, u, pending, st, chunks)
    requires var p := ParseAll(c, pending + chunks[0]);
      && p.Parsed? && ProcessAll(c, st, p.frames).error.None?
      && (NoClose(ProcessAll(c, st, p.frames).events) ==> Told(answers, u, ProcessAll(c, st, p.frames), w))
    ensures var p := ParseAll(c, pending + chunks[0]);
      var t := ProcessAll(c, st, p.frames);
      SoFar(c, answers, v, s, heard + t.events, w, p.rest, t.state, chunks[1..]) && (NoClose(s.events) ==> w.state == C.Open)
  {
    hide ParseAll, ProcessAll, NoClose, AfterEvents;
    var p := ParseAll(c, pending + chunks[0]);
    var r := ProcessAll(c, st, p.frames);
    var rest := Receive(c, p.rest, r.state, chunks[1..]);
    assert heard + (r.events + rest.events) == heard + r.events + rest.events;
    NoCloseBoth(heard + r.events, rest.events);
    NoCloseBoth(heard, r.events);
    AfterBoth(v, heard, r.events, answers);
    StaysOpen(u, r.events, answers);
  }

  lemma {:induction false} ReadEnds(c: Settings, answers: bool, v: C.View, s: Step, heard: seq<Event>, u: C.View,
                 pending: seq<byte>, st: Reassembly, chunks: seq<seq<byte>>, w: C.View)
    requires u.state == C.Open && chunks != [] && SoFar(c, answers, v, s, heard, u, pending, st, chunks)
    requires match ParseAll(c, pending + chunks[0])
      case Broken(e) => Told(answers, u, Step(st, [], Some(e)), w)
      case Parsed(frames, _) =>
        ProcessAll(c, st, frames).error.Some? && (NoClose(ProcessAll(c, st, frames).events) ==> Told(answers, u, ProcessAll(c, st, frames), w))
    ensures NoClose(s.events) ==> Told(answers, v, s, w)
  {
    hide ParseAll, ProcessAll, NoClose, ClosedFor;
    var p := ParseAll(c, pending + chunks[0]);
    if p.Parsed? {
      var r := ProcessAll(c, st, p.frames);
      NoCloseBoth(heard, r.events);
      AfterBoth(v, heard, r.events, answers);
    } else {
      assert heard + [] == heard;
    }
  }

  /**
   * The successive reads of an open connection, which are ignored once it is closing. Without a
   * close frame and an unchecked exception the listener is told what comes out of the whole stream,
   * and the connection is closed for an error of the stream, if there is one.
   */
  method ReadAll(impl: C.WebSocketImpl, draft: Draft, answers: bool, chunks: seq<seq<byte>>)
    requires impl.Valid() && draft.Valid() && impl.readyState == C.Open
    modifies impl, draft, draft.Footprint()
    ensures impl.Valid()
    ensures var s := Receive(draft.settings, old(draft.Pending()), old(draft.State()), chunks);
      s.error != Some(Crash) && NoClose(s.events) ==> Told(answers, old(C.Seen(impl)), s, C.Seen(impl))
  {
    hide C.Decoded, Told, Receive, ProcessAll, SoFar, ReadIn;
    ghost var c, v := draft.settings, C.Seen(impl);
    ghost var s := Receive(c, draft.Pending(), draft.State(), chunks);
    ghost var heard: seq<Event> := [];
    StartOfReads(c, answers, v, draft.Pending(), draft.State(), chunks);
    assert chunks[0..] == chunks && chunks[|chunks|..] == [];
    for i := 0 to |chunks|
      invariant impl.Valid() && draft.OwnOrFresh()
      invariant impl.readyState == C.Open ==>
        draft.Valid() && SoFar(c, answers, v, s, heard, C.Seen(impl), draft.Pending(), draft.State(), chunks[i..])
      invariant impl.readyState != C.Open && NoClose(s.events) ==> Told(answers, v, s, C.Seen(impl))
    {
      if impl.readyState == C.Open {
        ghost var u, pending, st := C.Seen(impl), draft.Pending(), draft.State();
        var buffer := new ByteBuffer.Wrap(chunks[i]);
        assert chunks[i..][0] == chunks[i] && chunks[i..][1..] == chunks[i + 1..] && buffer.After() == chunks[i];
        var crashed, trace := DecodeFrames(impl, draft, answers, buffer);
        if crashed {
          CrashEnds(c, answers, v, s, heard, u, pending, st, chunks[i..]);
          return;
        }
        ReadOn(c, answers, v, s, heard, u, pending, st, chunks[i..], trace, C.Seen(impl));
        if impl.readyState == C.Open { heard := heard + ProcessAll(c, st, ParseAll(c, pending + chunks[i]).frames).events; }
      }
    }
    if impl.readyState == C.Open { EndOfReads(c, answers, v, s, heard, C.Seen(impl), draft.Pending(), draft.State()); }
  }

  // ------------------------------------------------------------------ a close frame, from the sender on

  /**
   * An open connection that reads a close frame with an allowed code answers with the same code; the
   * listener is told that the other side closes with it, unless it knows of a close.
   */
  lemma {:induction false} CloseTold(c: Settings, st: Reassembly, code: nat, reason: seq<byte>, key: Option<seq<byte>>, answers: bool,
                 trace: seq<C.View>, w: C.View)
    requires IsKey(key) && code < 0x1_0000 && c.strict(reason) && |reason| <= 123 && |reason| + 2 <= c.maxFrameSize
    requires W.IsAllowed(code, reason != [])
    requires var b := Encode(Frame(true, Closing, ClosePayload(code, reason)), key);
      && ParseAll(c, b) != Broken(Crash)
      && C.Decoded(ReadIn(c, st, ParseAll(c, b), answers), trace, w) && trace[0].state == C.Open
    ensures var v := trace[0];
      w == C.View(C.Closing, v.queue + [C.CloseFrame(code)], C.Flushed(v.notices, code, true), v.hasDraft)
  {
    hide Encode, Translate, W.IsAllowed;
    var f := Frame(true, Closing, ClosePayload(code, reason));
    var b := Encode(f, key);
    assert b + [] == b && b[|b|..] == [];
    W.CloseArrives(c, st, code, reason, key, []);
    W.SizeWritten(f, key);
    W.AllowedCodes(code, reason != []);
    assert ParseAll(c, b) == Parsed([f], []);
    OneClose(c, st, f, code, reason, answers, trace, w);
  }

  lemma {:induction false} OneClose(c: Settings, st: Reassembly, f: Frame, code: int, reason: seq<byte>, answers: bool,
                 trace: seq<C.View>, w: C.View)
    requires Process(c, st, f) == Step(st, [GotClose(code, reason)], None) && CodeProblem(code, reason != []).None?
    requires C.Decoded(FramesIn(c, st, [f], answers), trace, w) && trace[0].state == C.Open
    ensures var v := trace[0];
      w == C.View(C.Closing, v.queue + [C.CloseFrame(code)], C.Flushed(v.notices, code, true), v.hasDraft)
  {
    hide Process;
    var ins := FramesIn(c, st, [f], answers);
    assert [f][1..] == [];
    assert ins == [C.CloseIn(code, true)];
    if |trace| > 1 { assert C.FrameDone(ins[0], trace[0], trace[0 + 1], C.Fine); }
  }

  // ------------------------------------------------------------------ one message, from the sender on

  lemma {:induction false} NoCloseFrames(c: Settings, st: Reassembly, frames: seq<Frame>)
    requires forall f :: f in frames ==> f.opcode != Closing
    ensures NoClose(ProcessAll(c, st, frames).events)
    decreases |frames|
  {
    if frames != [] {
      var s := Process(c, st, frames[0]);
      assert frames[0] in frames && NoClose(s.events);
      NoCloseFrames(c, s.state, frames[1..]);
      NoCloseBoth(s.events, ProcessAll(c, s.state, frames[1..]).events);
    }
  }

  ghost function Notices(messages: seq<Event>): seq<C.Notice> {
    if messages == [] then [] else [C.Message(messages[0])] + Notices(messages[1..])
  }

  /** The pongs for the pings among these frames. */
  ghost function Pongs(frames: seq<Frame>, answers: bool): seq<C.Packet> {
    if frames == [] then [] else (if answers && frames[0].opcode == Ping then [C.Pong] else []) + Pongs(frames[1..], answers)
  }

  lemma {:induction false} NoticesAfter(v: C.View, events: seq<Event>, answers: bool)
    ensures AfterEvents(v, events, answers).notices == v.notices + Notices(Messages(events))
    ensures v.queue <= AfterEvents(v, events, answers).queue
    decreases |events|
  {
    if events != [] {
      var u := AfterEvent(v, events[0], answers);
      NoticesAfter(u, events[1..], answers);
      var more := Messages(events[1..]);
      if events[0].GotText? || events[0].GotBinary? {
        assert ([events[0]] + more)[1..] == more;
        assert v.notices + ([C.Message(events[0])] + Notices(more)) == v.notices + [C.Message(events[0])] + Notices(more);
      }
    }
  }

  lemma {:induction false} OnePong(c: Settings, st: Reassembly, f: Frame, answers: bool, v: C.View)
    requires Process(c, st, f).error.None?
    ensures AfterEvents(v, Process(c, st, f).events, answers).queue == v.queue + if answers && f.opcode == Ping then [C.Pong] else []
  {
    var s := Process(c, st, f);
    if s.events != [] { assert s.events == [s.events[0]] && s.events[1..] == []; }
    assert v.queue + [] == v.queue;
  }

  lemma {:induction false} PongsAfter(c: Settings, st: Reassembly, frames: seq<Frame>, answers: bool, v: C.View)
    requires ProcessAll(c, st, frames).error.None?
    ensures AfterEvents(v, ProcessAll(c, st, frames).events, answers).queue == v.queue + Pongs(frames, answers)
    decreases |frames|
  {
    hide Process;
    if frames != [] {
      var s := Process(c, st, frames[0]);
      var u := AfterEvents(v, s.events, answers);
      OnePong(c, st, frames[0], answers, v);
      PongsAfter(c, s.state, frames[1..], answers, u);
      AfterBoth(v, s.events, ProcessAll(c, s.state, frames[1..]).events, answers);
    }
  }

  /** Delivered: one notice, with the message, and the pongs. */
  ghost predicate IsDelivered(v: C.View, w: C.View, message: Event, pongs: seq<C.Packet>) {
    w == v.(notices := v.notices + [C.Message(message)], queue := v.queue + pongs)
  }

  /** Refused: no message is told, and the last packet is a close frame with this code. */
  ghost predicate IsRefused(v: C.View, w: C.View, code: int) {
    && w.state == C.Closing && v.notices <= w.notices
    && (forall i :: |v.notices| <= i < |w.notices| ==> !w.notices[i].Message?)
    && v.queue < w.queue && w.queue[|w.queue| - 1] == C.CloseFrame(code)
  }

  lemma {:induction false} DeliveredTold(c: Settings, mixed: seq<Frame>, answers: bool, v: C.View, message: Event, w: C.View)
    requires Good(ProcessAll(c, Idle, mixed), message) && Told(answers, v, ProcessAll(c, Idle, mixed), w)
    ensures IsDelivered(v, w, message, Pongs(mixed, answers))
  {
    hide ProcessAll, Messages, AfterEvents;
    var events := ProcessAll(c, Idle, mixed).events;
    StaysOpen(v, events, answers);
    NoticesAfter(v, events, answers);
    PongsAfter(c, Idle, mixed, answers, v);
    assert [message][1..] == [];
  }

  lemma {:induction false} RefusedTold(e: Error, s: Step, answers: bool, v: C.View, w: C.View)
    requires e != Crash && v.state == C.Open && s.error == Some(e) && Messages(s.events) == [] && Told(answers, v, s, w)
    ensures IsRefused(v, w, CodeOf(e))
  {
    hide Messages, AfterEvents;
    StaysOpen(v, s.events, answers);
    NoticesAfter(v, s.events, answers);
  }

  /**
   * From the sender to the listener. A message that is cut and encoded in any way, mixed with pings
   * and pongs and received in any chunks on an open connection, is told exactly once and whole, and
   * the connection stays open, if it respects the limit and, for text, is UTF-8. Otherwise no
   * message is told at all, and the connection is closed with 1009 or 1007.
   */
  method ReceiveMessage(impl: C.WebSocketImpl, draft: Draft, answers: bool, chunks: seq<seq<byte>>,
                        ghost op: Opcode, ghost parts: seq<seq<byte>>, ghost mixed: seq<Frame>, ghost keys: seq<Option<seq<byte>>>)
    requires impl.Valid() && draft.Valid() && impl.readyState == C.Open && draft.Pending() == [] && draft.State() == Idle
    requires op == Text || op == Binary
    requires parts != [] && Pieces(draft.settings, None, op, parts).Some?
    requires forall p :: p in parts ==> |p| <= INT_MAX - 14
    requires Interleaving(draft.settings, mixed, Pieces(draft.settings, None, op, parts).value)
    requires Keys(keys, |mixed|) && Concat(chunks) == EncodeAll(mixed, keys)
    modifies impl, draft, draft.Footprint()
    ensures impl.Valid()
    ensures if Deliverable(draft.settings, op, Concat(parts)) then
        IsDelivered(old(C.Seen(impl)), C.Seen(impl), MessageOf(op, Concat(parts)), Pongs(mixed, answers))
      else IsRefused(old(C.Seen(impl)), C.Seen(impl), if |Concat(parts)| > draft.settings.maxFrameSize then 1009 else 1007)
  {
    hide Deliverable, Pieces, Interleaving, EncodeAll, ProcessAll, Receive, Told, IsDelivered, IsRefused;
    ghost var c, v, s := draft.settings, C.Seen(impl), Receive(draft.settings, [], Idle, chunks);
    EndToEnd(c, op, parts, mixed, keys, chunks);
    ghost var got := FramesReceived(c, op, parts, mixed, keys, chunks);
    NoCloseFrames(c, Idle, got);
    ReadAll(impl, draft, answers, chunks);
    if s.error.None? {
      DeliveredTold(c, mixed, answers, v, MessageOf(op, Concat(parts)), C.Seen(impl));
    } else {
      RefusedTold(s.error.value, s, answers, v, C.Seen(impl));
    }
  }
}
