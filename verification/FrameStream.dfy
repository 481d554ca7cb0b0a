/** A stream of frames: cutting it anywhere and keeping the unread bytes gives the same frames. */
module FrameStream {
  import opened Bytes
  import opened Frames
  import opened Options
  import opened Seqs

  // ParseAll is the reading of a whole stream at once.

  datatype Parsed =
    | Parsed(frames: seq<Frame>, rest: seq<byte>)
    | Broken(error: Error)

  /** All complete frames at the start of `b`, and the bytes of the unfinished one after them. */
  function ParseAll(c: Settings, b: seq<byte>): Parsed
    decreases |b|
  {
    if b == [] then Parsed([], [])
    else
      match Translate(c, b)
      case NeedMore(_) => Parsed([], b)
      case Failed(e) => Broken(e)
      case Done(f, size) =>
        PreferredIsLarger(c, b);
        Prepend([f], ParseAll(c, b[size..]))
  }

  function Prepend(frames: seq<Frame>, p: Parsed): Parsed {
    match p
    case Parsed(more, rest) => Parsed(frames + more, rest)
    case Broken(e) => Broken(e)
  }

  lemma {:induction false} PrependTwice(f: seq<Frame>, g: seq<Frame>, p: Parsed)
    ensures Prepend(f, Prepend(g, p)) == Prepend(f + g, p)
  {
    if p.Parsed? { assert f + (g + p.frames) == f + g + p.frames; }
  }

  lemma {:induction false} PrependNothing(p: Parsed)
    ensures Prepend([], p) == p
  {
    if p.Parsed? { assert [] + p.frames == p.frames; }
  }

  /** Reading on: a stream read so far is continued from the bytes it left unread. */
  lemma {:induction false} ParseContinues(c: Settings, a: seq<byte>, b: seq<byte>)
    ensures var p := ParseAll(c, a);
      ParseAll(c, a + b) == (if p.Broken? then p else Prepend(p.frames, ParseAll(c, p.rest + b)))
    decreases |a|
  {
    if a == [] {
      assert a + b == b;
      PrependNothing(ParseAll(c, b));
      assert [] + b == b;
    } else {
      PrefixStable(c, a, b);
      PreferredIsLarger(c, a);
      var r := Translate(c, a);
      if r.Done? {
        assert (a + b)[r.size..] == a[r.size..] + b;
        ParseContinues(c, a[r.size..], b);
        var p := ParseAll(c, a[r.size..]);
        if p.Parsed? {
          PrependTwice([r.frame], p.frames, ParseAll(c, p.rest + b));
        }
      } else if r.NeedMore? {
        PrependNothing(ParseAll(c, a + b));
      }
    }
  }

  /** What is left unread is empty or asks for more, and nothing in it can be read yet. */
  lemma {:induction false} RestIsUnfinished(c: Settings, b: seq<byte>)
    ensures var p := ParseAll(c, b);
      p.Parsed? && p.rest != [] ==>
        Translate(c, p.rest).NeedMore? && ParseAll(c, p.rest) == Parsed([], p.rest)
    decreases |b|
  {
    if b != [] {
      PreferredIsLarger(c, b);
      var r := Translate(c, b);
      if r.Done? { RestIsUnfinished(c, b[r.size..]); }
    }
  }

  /** Successive reads of the chunks, the unread bytes of one call carried into the next. */
  function Feed(c: Settings, pending: seq<byte>, chunks: seq<seq<byte>>): Parsed
    decreases |chunks|
  {
    if chunks == [] then Parsed([], pending)
    else
      match ParseAll(c, pending + chunks[0])
      case Broken(e) => Broken(e)
      case Parsed(frames, rest) => Prepend(frames, Feed(c, rest, chunks[1..]))
  }

  /**
   * Chunking independence, for every stream: however the bytes are cut, the frames read,
   * the bytes left over and the first error are those of reading the stream at once.
   */
  lemma {:induction false} ChunkingIndependence(c: Settings, pending: seq<byte>, chunks: seq<seq<byte>>)
    requires ParseAll(c, pending) == Parsed([], pending)
    ensures Feed(c, pending, chunks) == ParseAll(c, pending + Concat(chunks))
    decreases |chunks|
  {
    if chunks == [] {
      assert pending + Concat(chunks) == pending;
    } else {
      var head, tail := chunks[0], chunks[1..];
      assert pending + Concat(chunks) == (pending + head) + Concat(tail);
      ParseContinues(c, pending + head, Concat(tail));
      RestIsUnfinished(c, pending + head);
      var p := ParseAll(c, pending + head);
      if p.Parsed? { ChunkingIndependence(c, p.rest, tail); }
    }
  }

  // ---------------------------------------------------------------- encoded streams

  predicate Keys(keys: seq<Option<seq<byte>>>, count: nat) {
    |keys| == count && forall i :: 0 <= i < count ==> IsKey(keys[i])
  }

  /** Frames that an encoder can write and that pass isValid there. */
  predicate Sendable(c: Settings, f: Frame) {
    && (IsControl(f.opcode) ==> |f.payload| <= 125)
    && |f.payload| <= INT_MAX - 14
    && Problem(c, f).None?
  }

  /** And that this decoder accepts. */
  predicate Acceptable(c: Settings, f: Frame) {
    Sendable(c, f) && |f.payload| <= c.maxFrameSize
  }

  function EncodeAll(frames: seq<Frame>, keys: seq<Option<seq<byte>>>): seq<byte>
    requires Keys(keys, |frames|)
  {
    if frames == [] then [] else Encode(frames[0], keys[0]) + EncodeAll(frames[1..], keys[1..])
  }

  lemma EncodedSize(f: Frame, key: Option<seq<byte>>)
    requires IsKey(key)
    ensures 2 <= |Encode(f, key)| <= |f.payload| + 14
  {}

  lemma {:induction false} ParseEncoded(c: Settings, frames: seq<Frame>, keys: seq<Option<seq<byte>>>)
    requires Keys(keys, |frames|)
    requires forall i :: 0 <= i < |frames| ==> Acceptable(c, frames[i])
    ensures ParseAll(c, EncodeAll(frames, keys)) == Parsed(frames, [])
    decreases |frames|
  {
    if frames != [] {
      var f, key := frames[0], keys[0];
      var tail := EncodeAll(frames[1..], keys[1..]);
      EncodedSize(f, key);
      RoundTrip(c, f, key, tail);
      var s := Encode(f, key);
      assert (s + tail)[|s|..] == tail;
      ParseEncoded(c, frames[1..], keys[1..]);
      assert [f] + frames[1..] == frames;
    }
  }

  /**
   * However much of an encoded stream has arrived, the frames read are its first ones; from the whole
   * stream they are all of them, and it can only be broken by a frame that is too large.
   */
  lemma {:induction false} ParseArrived(c: Settings, frames: seq<Frame>, keys: seq<Option<seq<byte>>>, a: seq<byte>, b: seq<byte>)
    requires Keys(keys, |frames|) && a + b == EncodeAll(frames, keys)
    requires forall i :: 0 <= i < |frames| ==> Sendable(c, frames[i])
    ensures match ParseAll(c, a)
      case Parsed(read, _) => read <= frames && (b == [] ==> read == frames)
      case Broken(e) => e == LimitExceeded(c.maxFrameSize) && exists i :: 0 <= i < |frames| && |frames[i].payload| > c.maxFrameSize
    decreases |frames|
  {
    hide Translate, Encode, Problem;
    if frames == [] {
      assert a == [];
    } else {
      var f, key := frames[0], keys[0];
      var s, tail := Encode(f, key), EncodeAll(frames[1..], keys[1..]);
      EncodedSize(f, key);
      ReadOrTooLarge(c, f, key, tail);
      PrefixStable(c, a, b);
      PreferredIsLarger(c, a);
      if b == [] { assert a == a + b; }
      if a != [] && Translate(c, a).Done? {
        assert (a + b)[|s|..] == tail && (a + b)[|s|..] == a[|s|..] + b;
        ParseArrived(c, frames[1..], keys[1..], a[|s|..], b);
        assert frames == [f] + frames[1..];
      }
    }
  }

  /** Frames that come out of the decoder are within the limit and passed isValid. */
  lemma {:induction false} ParsedFramesAreChecked(c: Settings, b: seq<byte>)
    ensures var p := ParseAll(c, b);
      p.Parsed? ==> forall f :: f in p.frames ==> |f.payload| <= c.maxFrameSize && Problem(c, f).None?
    decreases |b|
  {
    if b != [] {
      PreferredIsLarger(c, b);
      var r := Translate(c, b);
      if r.Done? { ParsedFramesAreChecked(c, b[r.size..]); }
    }
  }
}
