/** The connection of WebSocketImpl: opening, sending, and the closing handshake. */
module Connection {
  import opened CloseCodes
  import Fragments
  import opened Options

  datatype ReadyState = NotYetConnected | Open | Closing | Closed

  function Rank(s: ReadyState): nat {
    match s
    case NotYetConnected => 0
    case Open => 1
    case Closing => 2
    case Closed => 3
  }

  /** What is put into the output queue, which is here never emptied. */
  datatype Packet = Http | Data | Pong | CloseFrame(code: int)

  /** What the listener is told. */
  datatype Notice = Opened | Initiated | ClosingNotice(code: int, remote: bool) | CloseNotice(code: int, remote: bool)
                  | Message(event: Fragments.Event) | Failure

  /** code, message and origin of the close that flushAndClose was called for; messages are left out. */
  datatype CloseData = CloseData(code: int, remote: bool)

  /**
   * What a received frame amounts to when processFrame has looked at it. An error is `told` to the
   * listener unless it is a limit other than Integer.MAX_VALUE that was exceeded.
   */
  datatype Incoming =
    | Complete(message: Fragments.Event)
    | Part
    | Ping(answered: bool)
    | PongIn
    | CloseIn(code: int, valid: bool)
    | Invalid(code: int, valid: bool, told: bool)

  datatype Role = Client | Server

  /** How a turn of decodeHandshake ends; the listener is `told` of an exception in its own code. */
  datatype Handshake =
    | Incomplete
    | Matched
    | WrongHandshake(code: int, told: bool)  // a server that has not chosen a draft yet: answer and flushAndClose
    | Rejected(code: int, told: bool)        // flushAndClose without an answer
    | Refused(code: int, valid: bool)        // close

  // ------------------------------------------------------------------ what holds between calls

  /** How often onWebsocketClosing was called. */
  ghost function Closings(notices: seq<Notice>): nat {
    if notices == [] then 0
    else Closings(notices[..|notices| - 1]) + if notices[|notices| - 1].ClosingNotice? then 1 else 0
  }

  /** How often onWebsocketClose was called. */
  ghost function Closes(notices: seq<Notice>): nat {
    if notices == [] then 0
    else Closes(notices[..|notices| - 1]) + if notices[|notices| - 1].CloseNotice? then 1 else 0
  }

  /** A close frame is the last packet, and then no more packets are accepted. */
  ghost predicate QueueOk(q: seq<Packet>, s: ReadyState) {
    && (forall i :: 0 <= i < |q| - 1 ==> !q[i].CloseFrame?)
    && (q != [] && q[|q| - 1].CloseFrame? ==> Rank(s) >= Rank(Closing))
  }

  /** At most one of each notice: the second kind exactly when closed, the first when flushing for a close. */
  ghost predicate NoticesOk(notices: seq<Notice>, s: ReadyState, flushing: bool, close: Option<CloseData>) {
    && Closings(notices) == (if flushing then 1 else 0)
    && Closes(notices) == (if s == Closed then 1 else 0)
    && close == Announced(notices) && (close.Some? <==> flushing)
  }

  /** The close that the listener was told of by onWebsocketClosing. */
  ghost function Announced(notices: seq<Notice>): Option<CloseData> {
    if notices == [] then None
    else
      var n := notices[|notices| - 1];
      if n.ClosingNotice? then Some(CloseData(n.code, n.remote)) else Announced(notices[..|notices| - 1])
  }

  lemma {:induction false} OneMoreNotice(notices: seq<Notice>, n: Notice)
    ensures Closings(notices + [n]) == Closings(notices) + if n.ClosingNotice? then 1 else 0
    ensures Closes(notices + [n]) == Closes(notices) + if n.CloseNotice? then 1 else 0
    ensures Announced(notices + [n]) == if n.ClosingNotice? then Some(CloseData(n.code, n.remote)) else Announced(notices)
  {
    assert (notices + [n])[..|notices|] == notices;
  }

  // ------------------------------------------------------------------ what the calls do, seen from outside

  /** What can be seen of a connection from outside, and whether it has a draft. */
  datatype View = View(state: ReadyState, queue: seq<Packet>, notices: seq<Notice>, hasDraft: bool)

  ghost function Seen(c: WebSocketImpl): View
    reads c
  {
    View(c.readyState, c.outQueue, c.notices, c.hasDraft)
  }

  datatype Processed = Fine | InvalidData(code: int, valid: bool, told: bool) | NotConnected

  /** The notices after one of an error, if it is told. */
  function Blamed(notices: seq<Notice>, told: bool): seq<Notice> {
    if told then notices + [Failure] else notices
  }

  /** The listener is told that the connection is closing, unless it knows. */
  ghost function Flushed(notices: seq<Notice>, code: int, remote: bool): seq<Notice> {
    if Closings(notices) == 0 then notices + [ClosingNotice(code, remote)] else notices
  }

  /** What the listener hears of a close before there is a connection, and of one that ends it. */
  ghost function HeardEarly(notices: seq<Notice>, code: int, remote: bool): seq<Notice> {
    if code == FLASHPOLICY then Flushed(notices, code, true)
    else if code == PROTOCOL_ERROR then Flushed(notices, code, remote)
    else Flushed(notices, NEVER_CONNECTED, false)
  }

  ghost function HeardOpen(notices: seq<Notice>, code: int, valid: bool, remote: bool): seq<Notice> {
    if code == ABNORMAL_CLOSE then Flushed(notices, code, false)
    else
      var told := if remote then notices else notices + [Initiated];
      if valid then Flushed(told, code, remote) else Flushed(told + [Failure], ABNORMAL_CLOSE, false)
  }

  /** close: only on a connection that is not closing yet, and only an open one sends a close frame. */
  ghost predicate CloseDone(code: int, valid: bool, remote: bool, v: View, w: View) {
    match v.state
    case Open => w == View(Closing, if code != ABNORMAL_CLOSE && valid then v.queue + [CloseFrame(code)] else v.queue,
                           HeardOpen(v.notices, code, valid, remote), v.hasDraft)
    case NotYetConnected => w == View(Closing, v.queue, HeardEarly(v.notices, code, remote), v.hasDraft)
    case _ => w == v
  }

  /** One received frame, and how its processing ends. */
  ghost predicate FrameDone(f: Incoming, v: View, w: View, r: Processed) {
    match f
    case Complete(m) => r == Fine && w == v.(notices := v.notices + [Message(m)])
    case Part => r == Fine && w == v
    case PongIn => r == Fine && w == v
    case Ping(answered) =>
      && r == (if answered && v.state != Open then NotConnected else Fine)
      && w == (if answered && v.state == Open then v.(queue := v.queue + [Pong]) else v)
    case CloseIn(code, valid) =>
      && r == Fine
      && if v.state == Closing then w == v.(state := Closed, notices := v.notices + [CloseNotice(code, true)])
         else CloseDone(code, valid, true, v, w)
    case Invalid(code, valid, told) => r == InvalidData(code, valid, told) && w == v
  }

  ghost predicate AllFine(frames: seq<Incoming>, trace: seq<View>)
    requires 1 <= |trace| <= |frames| + 1
  {
    forall i {:trigger trace[i]} :: 0 <= i < |trace| - 1 ==> FrameDone(frames[i], trace[i], trace[i + 1], Fine)
  }

  lemma OneMoreFine(frames: seq<Incoming>, trace: seq<View>, w: View)
    requires 1 <= |trace| <= |frames| && AllFine(frames, trace) && FrameDone(frames[|trace| - 1], trace[|trace| - 1], w, Fine)
    ensures AllFine(frames, trace + [w])
  {}

  /** Frames processed one after the other, as far as `trace` goes; the next one, if any, ended it. */
  ghost predicate Decoded(frames: seq<Incoming>, trace: seq<View>, w: View) {
    && 1 <= |trace| <= |frames| + 1
    && AllFine(frames, trace)
    && var n, v := |trace| - 1, trace[|trace| - 1];
       if n == |frames| then w == v
       else
         match frames[n]
         case Invalid(code, valid, told) => CloseDone(code, valid, false, v.(notices := Blamed(v.notices, told)), w)
         case Ping(answered) => answered && v.state != Open && w == v
         case _ => false
  }

  ghost predicate HandshakeDone(h: Handshake, v: View, w: View) {
    match h
    case Incomplete => w == v
    case Matched => w == View(Open, if v.hasDraft then v.queue else v.queue + [Http], v.notices + [Opened], true)
    case WrongHandshake(code, told) => w == v.(queue := v.queue + [Http], notices := Flushed(Blamed(v.notices, told), code, false))
    case Rejected(code, told) => w == v.(notices := Flushed(Blamed(v.notices, told), code, false))
    case Refused(code, valid) => CloseDone(code, valid, false, v, w)
  }

  /** decode: a handshake first, then frames, and nothing any more on a connection that is closing. */
  ghost predicate InputDone(h: Handshake, frames: seq<Incoming>, v: View, w: View, trace: seq<View>) {
    match v.state
    case Open => Decoded(frames, trace, w) && trace[0] == v
    case NotYetConnected =>
      if h.Matched? then Decoded(frames, trace, w) && HandshakeDone(h, v, trace[0]) else HandshakeDone(h, v, w)
    case _ => w == v
  }

  class WebSocketImpl {
    var readyState: ReadyState
    var flushAndCloseState: bool
    var close: Option<CloseData>
    var outQueue: seq<Packet>
    var hasDraft: bool
    var hasHandshakeBytes: bool
    var notices: seq<Notice>
    const role: Role

    ghost predicate Valid()
      reads this
    {
      && QueueOk(outQueue, readyState) && NoticesOk(notices, readyState, flushAndCloseState, close)
      && (readyState == Open ==> hasDraft) && (readyState == Closing ==> flushAndCloseState)
      && (Rank(readyState) < Rank(Closing) ==> hasHandshakeBytes)
    }

    /** The connection only moves on, and what is queued stays queued. */
    twostate predicate MovedOn()
      reads this
    {
      Rank(old(readyState)) <= Rank(readyState) && old(outQueue) <= outQueue
    }

    constructor (role: Role)
      ensures Valid() && readyState == NotYetConnected && outQueue == [] && notices == []
      ensures this.role == role && hasDraft == (role == Client)
    {
      this.role := role;
      readyState, flushAndCloseState, close, outQueue := NotYetConnected, false, None, [];
      hasDraft, hasHandshakeBytes, notices := role == Client, true, [];
    }

    // ---------------------------------------------------------------- output

    method Write(p: Packet)
      modifies `outQueue
      ensures outQueue == old(outQueue) + [p]
    {
      outQueue := outQueue + [p];
    }

    method Tell(n: Notice)
      modifies `notices
      ensures notices == old(notices) + [n]
      ensures Closings(notices) == old(Closings(notices)) + if n.ClosingNotice? then 1 else 0
      ensures Closes(notices) == old(Closes(notices)) + if n.CloseNotice? then 1 else 0
      ensures Announced(notices) == if n.ClosingNotice? then Some(CloseData(n.code, n.remote)) else old(Announced(notices))
    {
      OneMoreNotice(notices, n);
      notices := notices + [n];
    }

    /** send, of frames other than close frames: refused unless the connection is open. */
    method Send(packets: seq<Packet>) returns (ok: bool)
      requires Valid() && forall i :: 0 <= i < |packets| ==> packets[i].Data? || packets[i].Pong?
      modifies `outQueue
      ensures Valid() && MovedOn()
      ensures ok == (readyState == Open)
      ensures outQueue == if ok then old(outQueue) + packets else old(outQueue)
    {
      if readyState != Open { return false; }
      for i := 0 to |packets|
        invariant outQueue == old(outQueue) + packets[..i] && QueueOk(outQueue, readyState)
      {
        Write(packets[i]);
      }
      assert packets[..|packets|] == packets;
      ok := true;
    }

    // ---------------------------------------------------------------- closing

    /** flushAndClose: only the first call counts. */
    method FlushAndClose(code: int, remote: bool)
      requires NoticesOk(notices, readyState, flushAndCloseState, close)
      modifies `flushAndCloseState, `close, `notices
      ensures NoticesOk(notices, readyState, flushAndCloseState, close) && flushAndCloseState
      ensures close == if old(flushAndCloseState) then old(close) else Some(CloseData(code, remote))
      ensures notices == Flushed(old(notices), code, remote)
    {
      if flushAndCloseState { return; }
      close := Some(CloseData(code, remote));
      flushAndCloseState := true;
      Tell(ClosingNotice(code, remote));
    }

    /** The part of close for an open connection. */
    method CloseOpen(code: int, valid: bool, remote: bool)
      requires Valid() && readyState == Open
      modifies `readyState, `flushAndCloseState, `close, `outQueue, `notices
      ensures NoticesOk(notices, readyState, flushAndCloseState, close) && flushAndCloseState
      ensures readyState == if code == ABNORMAL_CLOSE then Closing else Open
      ensures outQueue == if code != ABNORMAL_CLOSE && valid then old(outQueue) + [CloseFrame(code)] else old(outQueue)
      ensures notices == HeardOpen(old(notices), code, valid, remote) && QueueOk(outQueue, Closing)
    {
      if code == ABNORMAL_CLOSE {
        readyState := Closing;
        FlushAndClose(code, false);
        return;
      }
      if !remote { Tell(Initiated); }
      if valid {
        Write(CloseFrame(code));
      } else {
        Tell(Failure);
        FlushAndClose(ABNORMAL_CLOSE, false);
      }
      FlushAndClose(code, remote);
    }

    /** The part of close before there is a connection. */
    method CloseEarly(code: int, remote: bool)
      requires Valid() && readyState == NotYetConnected
      modifies `flushAndCloseState, `close, `notices
      ensures NoticesOk(notices, readyState, flushAndCloseState, close) && flushAndCloseState
      ensures notices == HeardEarly(old(notices), code, remote)
    {
      if code == FLASHPOLICY {
        FlushAndClose(FLASHPOLICY, true);
      } else if code == PROTOCOL_ERROR {
        FlushAndClose(code, remote);
      } else {
        FlushAndClose(NEVER_CONNECTED, false);
      }
    }

    method EndOpen(code: int, valid: bool, remote: bool)
      requires Valid() && readyState == Open
      modifies this
      ensures Valid() && readyState == Closing && hasDraft == old(hasDraft)
      ensures outQueue == if code != ABNORMAL_CLOSE && valid then old(outQueue) + [CloseFrame(code)] else old(outQueue)
      ensures notices == HeardOpen(old(notices), code, valid, remote) && (code != ABNORMAL_CLOSE ==> !hasHandshakeBytes)
    {
      hide HeardOpen;
      CloseOpen(code, valid, remote);
      if code == ABNORMAL_CLOSE { return; }
      readyState := Closing;
      hasHandshakeBytes := false;
    }

    method EndEarly(code: int, remote: bool)
      requires Valid() && readyState == NotYetConnected
      modifies this
      ensures Valid() && readyState == Closing && hasDraft == old(hasDraft) && outQueue == old(outQueue)
      ensures notices == HeardEarly(old(notices), code, remote) && !hasHandshakeBytes
    {
      CloseEarly(code, remote);
      readyState := Closing;
      hasHandshakeBytes := false;
    }

    /**
     * close(code, message, remote). `valid` is whether CloseFrame.isValid accepts the frame. A
     * close frame is queued exactly by the call that closes an open connection with a frame
     * that is valid, unless the code says that the close is abnormal.
     */
    method Close(code: int, valid: bool, remote: bool)
      requires Valid()
      modifies this
      ensures Valid() && MovedOn() && CloseDone(code, valid, remote, old(Seen(this)), Seen(this)) && readyState != Open
      ensures old(Rank(readyState)) < Rank(Closing) && !(old(readyState) == Open && code == ABNORMAL_CLOSE) ==> !hasHandshakeBytes
    {
      if readyState != Closing && readyState != Closed {
        if readyState == Open {
          EndOpen(code, valid, remote);
        } else {
          EndEarly(code, remote);
        }
      }
    }

    /** closeConnection(code, message, remote): without a handshake; the listener is told once. */
    method CloseConnection(code: int, remote: bool)
      requires Valid()
      modifies this
      ensures Valid() && MovedOn() && readyState == Closed && outQueue == old(outQueue) && hasDraft == old(hasDraft)
      ensures notices == if old(readyState) == Closed then old(notices) else old(notices) + [CloseNotice(code, remote)]
    {
      if readyState == Closed { return; }
      Tell(CloseNotice(code, remote));
      readyState := Closed;
    }

    /** closeConnection(), which needs a flushAndClose before. */
    method CloseConnectionStored() returns (ok: bool)
      requires Valid()
      modifies this
      ensures Valid() && MovedOn() && outQueue == old(outQueue) && hasDraft == old(hasDraft)
      ensures ok == old(close.Some?) && readyState == if ok then Closed else old(readyState)
      ensures notices == if ok && old(readyState) != Closed then old(notices) + [CloseNotice(old(close).value.code, old(close).value.remote)]
                         else old(notices)
    {
      if close == None { return false; }
      CloseConnection(close.value.code, close.value.remote);
      ok := true;
    }

    /**
     * eot: the other side is gone. It fails for want of a draft exactly if the connection was
     * closed before there was one, and without a flushAndClose.
     */
    method Eot() returns (ok: bool)
      requires Valid()
      modifies this
      ensures Valid() && MovedOn() && outQueue == old(outQueue) && readyState == Closed && hasDraft == old(hasDraft)
      ensures old(readyState) == Closed ==> notices == old(notices)
      ensures old(readyState) != Closed ==>
        notices == old(notices) + [if old(readyState) == NotYetConnected then CloseNotice(NEVER_CONNECTED, true)
                                   else if old(flushAndCloseState) then CloseNotice(old(close).value.code, old(close).value.remote)
                                   else CloseNotice(ABNORMAL_CLOSE, true)]
      ensures !ok <==> old(readyState) == Closed && !old(flushAndCloseState) && !old(hasDraft)
    {
      ok := true;
      if readyState == NotYetConnected {
        CloseConnection(NEVER_CONNECTED, true);
      } else if flushAndCloseState {
        CloseConnection(close.value.code, close.value.remote);
      } else if hasDraft {
        CloseConnection(ABNORMAL_CLOSE, true);
      } else {
        ok := false;
      }
    }

    // ---------------------------------------------------------------- received frames

    /** processFrame and the listener's answer to a ping: InvalidData and NotConnected are exceptions. */
    method ProcessFrame(f: Incoming) returns (r: Processed)
      requires Valid()
      modifies this
      ensures Valid() && MovedOn() && FrameDone(f, old(Seen(this)), Seen(this), r)
    {
      r := Fine;
      match f
      case Complete(m) => Tell(Message(m));
      case Part =>
      case PongIn =>
      case Ping(answered) =>
        if answered {
          var ok := Send([Pong]);
          if !ok { r := NotConnected; }
        }
      case CloseIn(code, valid) =>
        if readyState == Closing {
          CloseConnection(code, true);
        } else {
          Close(code, valid, true);
        }
      case Invalid(code, valid, told) => r := InvalidData(code, valid, told);
    }

    /** decodeFrames: all frames of one buffer, or those before an error, which closes the connection. */
    method DecodeFrames(frames: seq<Incoming>) returns (ghost trace: seq<View>)
      requires Valid()
      modifies this
      ensures Valid() && MovedOn() && Decoded(frames, trace, Seen(this)) && trace[0] == old(Seen(this))
    {
      hide CloseDone;
      trace := [Seen(this)];
      for i := 0 to |frames|
        invariant Valid() && MovedOn() && |trace| == i + 1 && trace[0] == old(Seen(this)) && trace[i] == Seen(this)
        invariant AllFine(frames, trace)
      {
        var r := ProcessFrame(frames[i]);
        if r.InvalidData? {
          Refuse(r.code, r.valid, r.told);
          return;
        }
        if r.NotConnected? { return; }
        OneMoreFine(frames, trace, Seen(this));
        trace := trace + [Seen(this)];
      }
    }

    /** What becomes of the connection when a frame is refused. */
    method Refuse(code: int, valid: bool, told: bool)
      requires Valid()
      modifies this
      ensures Valid() && MovedOn() && readyState != Open
      ensures CloseDone(code, valid, false, old(Seen(this)).(notices := Blamed(old(notices), told)), Seen(this))
    {
      hide CloseDone;
      if told { Tell(Failure); }
      Close(code, valid, false);
    }

    /** open, with the answer of a server that chooses its draft now. */
    method MatchHandshake()
      requires Valid() && readyState == NotYetConnected
      modifies this
      ensures Valid() && MovedOn() && HandshakeDone(Matched, old(Seen(this)), Seen(this))
    {
      hide Closings, Closes, Announced;
      if !hasDraft { Write(Http); }
      hasDraft, readyState := true, Open;
      Tell(Opened);
    }

    /** The end of a connection whose handshake is not accepted; with an answer while there is no draft. */
    method TurnAway(code: int, told: bool, answered: bool)
      requires Valid() && readyState == NotYetConnected
      modifies `outQueue, `flushAndCloseState, `close, `notices
      ensures Valid() && MovedOn() && outQueue == if answered then old(outQueue) + [Http] else old(outQueue)
      ensures notices == Flushed(Blamed(old(notices), told), code, false)
    {
      hide Closings, Closes, Announced, Flushed;
      if told { Tell(Failure); }
      if answered { Write(Http); }
      FlushAndClose(code, false);
    }

    /** One attempt to read the handshake, with its outcome. */
    method DecodeHandshake(h: Handshake) returns (matched: bool)
      requires Valid() && readyState == NotYetConnected && (h.WrongHandshake? ==> role == Server && !hasDraft)
      modifies this
      ensures Valid() && MovedOn() && matched == h.Matched? && HandshakeDone(h, old(Seen(this)), Seen(this))
    {
      hide CloseDone, Flushed;
      matched := false;
      match h
      case Incomplete =>
      case Matched =>
        MatchHandshake();
        matched := true;
      case WrongHandshake(code, told) => TurnAway(code, told, true);
      case Rejected(code, told) => TurnAway(code, told, false);
      case Refused(code, valid) => Close(code, valid, false);
    }

    /** decode. */
    method Decode(h: Handshake, frames: seq<Incoming>) returns (ghost trace: seq<View>)
      requires Valid() && (h.WrongHandshake? ==> role == Server && !hasDraft)
      modifies this
      ensures Valid() && MovedOn() && InputDone(h, frames, old(Seen(this)), Seen(this), trace)
    {
      trace := [];
      if readyState != NotYetConnected {
        if readyState == Open { trace := DecodeFrames(frames); }
      } else {
        var matched := DecodeHandshake(h);
        if matched { trace := DecodeFrames(frames); }
      }
    }

    /** startHandshake, which a client calls before anything is received. */
    method StartHandshake()
      requires Valid() && readyState == NotYetConnected
      modifies `outQueue
      ensures Valid() && MovedOn() && outQueue == old(outQueue) + [Http]
    {
      Write(Http);
    }
  }

  // ------------------------------------------------------------------ runs

  datatype Call =
    | Start
    | Input(handshake: Handshake, frames: seq<Incoming>)
    | UserSend(packets: seq<Packet>)
    | UserClose(code: int, valid: bool)
    | UserCloseConnection(code: int)
    | UserCloseStored
    | UserFlush(code: int)
    | EndOfInput

  /** Calls that the program makes in this state: no hand-built close frames, and a handshake is started first. */
  predicate Possible(c: Call, s: ReadyState, hasDraft: bool, role: Role) {
    match c
    case Start => s == NotYetConnected
    case Input(h, _) => h.WrongHandshake? ==> role == Server && !hasDraft
    case UserSend(packets) => forall i :: 0 <= i < |packets| ==> packets[i].Data? || packets[i].Pong?
    case _ => true
  }

  ghost function CloseFrames(q: seq<Packet>): nat {
    if q == [] then 0 else CloseFrames(q[..|q| - 1]) + if q[|q| - 1].CloseFrame? then 1 else 0
  }

  lemma {:induction false} NoneInside(q: seq<Packet>)
    requires forall i :: 0 <= i < |q| ==> !q[i].CloseFrame?
    ensures CloseFrames(q) == 0
  {
    if q != [] { NoneInside(q[..|q| - 1]); }
  }

  /** What each call does. */
  ghost predicate CallDone(call: Call, v: View, w: View) {
    match call
    case Start => w == v.(queue := v.queue + [Http])
    case Input(h, frames) => SomeInput(h, frames, v, w)
    case UserSend(packets) => w == if v.state == Open then v.(queue := v.queue + packets) else v
    case UserClose(code, valid) => CloseDone(code, valid, false, v, w)
    case UserCloseConnection(code) => Disconnected(v, w, CloseNotice(code, false))
    case UserCloseStored =>
      if Announced(v.notices) == None then w == v else Disconnected(v, w, AsAnnounced(v.notices))
    case UserFlush(code) => w == v.(notices := Flushed(v.notices, code, false))
    case EndOfInput =>
      Disconnected(v, w, if v.state == NotYetConnected then CloseNotice(NEVER_CONNECTED, true) else AsAnnounced(v.notices))
  }

  ghost predicate SomeInput(h: Handshake, frames: seq<Incoming>, v: View, w: View) {
    exists trace :: InputDone(h, frames, v, w, trace)
  }

  /** The end of a connection, of which the listener is told unless it had ended before. */
  ghost predicate Disconnected(v: View, w: View, n: Notice) {
    w == v.(state := Closed, notices := if v.state == Closed then v.notices else v.notices + [n])
  }

  /** The listener hears in the end what it heard when the closing began; a connection that is just gone is abnormal. */
  ghost function AsAnnounced(notices: seq<Notice>): Notice {
    match Announced(notices)
    case Some(d) => CloseNotice(d.code, d.remote)
    case None => CloseNotice(ABNORMAL_CLOSE, true)
  }

  /** The promises about one connection at one time. */
  ghost predicate Safe(v: View) {
    && CloseFrames(v.queue) <= 1
    && (forall i :: 0 <= i < |v.queue| && v.queue[i].CloseFrame? ==> i == |v.queue| - 1)
    && Closings(v.notices) <= 1 && Closes(v.notices) <= 1
  }

  /** The promises about an earlier and a later time. */
  ghost predicate Forward(v: View, w: View) {
    Rank(v.state) <= Rank(w.state) && v.queue <= w.queue
  }

  lemma {:induction false} ValidIsSafe(c: WebSocketImpl)
    requires c.Valid()
    ensures Safe(Seen(c))
  {
    var q := c.outQueue;
    if q != [] { NoneInside(q[..|q| - 1]); }
  }

  method PerformInput(c: WebSocketImpl, h: Handshake, frames: seq<Incoming>)
    requires c.Valid() && (h.WrongHandshake? ==> c.role == Server && !c.hasDraft)
    modifies c
    ensures c.Valid() && Forward(old(Seen(c)), Seen(c)) && CallDone(Input(h, frames), old(Seen(c)), Seen(c))
  {
    ghost var trace := c.Decode(h, frames);
    assert InputDone(h, frames, old(Seen(c)), Seen(c), trace);
  }

  method PerformStored(c: WebSocketImpl)
    requires c.Valid()
    modifies c
    ensures c.Valid() && Forward(old(Seen(c)), Seen(c)) && CallDone(UserCloseStored, old(Seen(c)), Seen(c))
  {
    var done := c.CloseConnectionStored();
  }

  method PerformEot(c: WebSocketImpl)
    requires c.Valid()
    modifies c
    ensures c.Valid() && Forward(old(Seen(c)), Seen(c)) && CallDone(EndOfInput, old(Seen(c)), Seen(c))
  {
    var done := c.Eot();
  }

  /** What the program itself asks for. */
  method PerformRequest(c: WebSocketImpl, call: Call)
    requires c.Valid() && Possible(call, c.readyState, c.hasDraft, c.role)
    requires !call.Input? && !call.UserCloseStored? && !call.EndOfInput?
    modifies c
    ensures c.Valid() && Forward(old(Seen(c)), Seen(c)) && CallDone(call, old(Seen(c)), Seen(c))
  {
    hide SomeInput, CloseDone, Flushed, NoticesOk, QueueOk;
    match call {
      case Start => c.StartHandshake();
      case UserSend(packets) => var sent := c.Send(packets);
      case UserClose(code, valid) => c.Close(code, valid, false);
      case UserCloseConnection(code) => c.CloseConnection(code, false);
      case UserFlush(code) => c.FlushAndClose(code, false);
    }
  }

  method Perform(c: WebSocketImpl, call: Call)
    requires c.Valid() && Possible(call, c.readyState, c.hasDraft, c.role)
    modifies c
    ensures c.Valid() && Safe(Seen(c)) && Forward(old(Seen(c)), Seen(c)) && CallDone(call, old(Seen(c)), Seen(c))
  {
    hide CallDone, Safe, Forward;
    match call {
      case Input(h, frames) => PerformInput(c, h, frames);
      case UserCloseStored => PerformStored(c);
      case EndOfInput => PerformEot(c);
      case _ => PerformRequest(c, call);
    }
    ValidIsSafe(c);
  }

  /** The calls up to now, one by one, and what holds at each time and between any two times. */
  ghost predicate RunOk(run: seq<Call>, trace: seq<View>) {
    && 1 <= |trace| <= |run| + 1
    && (forall i {:trigger trace[i]} :: 0 <= i < |trace| - 1 ==> CallDone(run[i], trace[i], trace[i + 1]))
    && (forall i :: 0 <= i < |trace| ==> Safe(trace[i]))
    && (forall i, j :: 0 <= i <= j < |trace| ==> Forward(trace[i], trace[j]))
  }

  lemma {:induction false} RunOn(run: seq<Call>, trace: seq<View>, w: View)
    requires RunOk(run, trace) && |trace| <= |run| && Safe(w)
    requires var v := trace[|trace| - 1]; CallDone(run[|trace| - 1], v, w) && Forward(v, w)
    ensures RunOk(run, trace + [w])
  {
    hide CallDone, Safe;
    var more := trace + [w];
    forall i, j | 0 <= i <= j < |more| ensures Forward(more[i], more[j]) {
      if i < j == |trace| { assert Forward(trace[i], trace[|trace| - 1]); }
    }
  }

  /** Every run, up to a call that is not possible: it is safe at all times and only moves forward. */
  method RunCalls(c: WebSocketImpl, run: seq<Call>) returns (n: nat, ghost trace: seq<View>)
    requires c.Valid()
    modifies c
    ensures n <= |run| && |trace| == n + 1 && trace[0] == old(Seen(c)) && trace[n] == Seen(c)
    ensures n < |run| ==> !Possible(run[n], c.readyState, c.hasDraft, c.role)
    ensures RunOk(run, trace)
  {
    n, trace := 0, [Seen(c)];
    ValidIsSafe(c);
    while n < |run| && Possible(run[n], c.readyState, c.hasDraft, c.role)
      invariant c.Valid() && n <= |run| && |trace| == n + 1 && trace[0] == old(Seen(c)) && trace[n] == Seen(c)
      invariant RunOk(run, trace)
    {
      Perform(c, run[n]);
      RunOn(run, trace, Seen(c));
      trace := trace + [Seen(c)];
      n := n + 1;
    }
  }
}
