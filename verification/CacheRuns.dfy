/** Runs of the cache in which every extent is always accessed with the same length. */
module CacheRuns {
  import opened Bytes
  import opened Cache

  /** One atomic step: a client's read or write, or one turn of the flusher. */
  datatype Access = ReadBytes(key: Key, n: nat) | WriteBytes(key: Key, data: seq<byte>) | FlushOne

  /** Each offset of each file has one length, and all accesses use it. */
  predicate OneLength(a: Access, length: map<Key, nat>) {
    match a
    case ReadBytes(k, n) => k in length && n == length[k]
    case WriteBytes(k, data) => k in length && |data| == length[k]
    case FlushOne => true
  }

  /** The same accesses without a cache: what each read returns. */
  function Replies(content: map<Key, seq<byte>>, run: seq<Access>): seq<seq<byte>>
    decreases |run|
  {
    if run == [] then []
    else
      match run[0]
      case ReadBytes(k, n) => [if k in content then content[k] else []] + Replies(content, run[1..])
      case WriteBytes(k, data) => Replies(content[k := data], run[1..])
      case FlushOne => Replies(content, run[1..])
  }

  /** All entries have the lengths of the accesses, and the cache counts them correctly. */
  ghost predicate Uniform(s: State, length: map<Key, nat>) {
    && Sound(s, length) && Drift(s) == 0
    && forall k :: k in s.cache ==> k in length && |s.cache[k].data| == length[k]
  }

  ghost predicate Represents(s: State, length: map<Key, nat>, content: map<Key, seq<byte>>) {
    && content.Keys == length.Keys
    && forall k {:trigger Holds(s, k, content[k])} :: k in content ==> |content[k]| == length[k] && Holds(s, k, content[k])
  }

  /** As long as anything is counted there is an entry to poll. */
  lemma PollFindsEntry(s: State, length: map<Key, nat>)
    requires Uniform(s, length) && s.cacheSize != 0
    ensures s.cachePriority != []
  {}

  lemma {:induction false} StillRepresents(s: State, t: State, length: map<Key, nat>, content: map<Key, seq<byte>>, except: set<Key>)
    requires Represents(s, length, content) && Keeps(s, t, length, except)
    requires forall k :: k in except && k in content ==> Holds(t, k, content[k])
    ensures Represents(t, length, content)
  {
    forall k | k in content ensures |content[k]| == length[k] && Holds(t, k, content[k]) { assert Holds(s, k, content[k]); }
  }

  lemma {:induction false} RepresentsWrite(s: State, t: State, length: map<Key, nat>, content: map<Key, seq<byte>>, k: Key, data: seq<byte>)
    requires Represents(s, length, content) && Keeps(s, t, length, {k}) && Holds(t, k, data) && k in length && |data| == length[k]
    ensures Represents(t, length, content[k := data])
  {
    var after := content[k := data];
    forall j | j in after ensures |after[j]| == length[j] && Holds(t, j, after[j]) {
      if j != k { assert Holds(s, j, content[j]); }
    }
  }

  method StepRead(t: ActionThread, k: Key, n: nat, length: map<Key, nat>, ghost content: map<Key, seq<byte>>)
    returns (r: seq<byte>, hung: bool)
    requires Uniform(t.Now(), length) && Represents(t.Now(), length, content) && k in length && n == length[k]
    modifies t
    ensures !hung && r == content[k] && Uniform(t.Now(), length) && Represents(t.Now(), length, content)
    ensures t.cacheSize <= Max(old(t.cacheSize), Max(t.maxCacheSize, n))
  {
    ghost var s := t.Now();
    assert Holds(s, k, content[k]);
    r, hung := t.Read(k, n, length);
    StillRepresents(s, t.Now(), length, content, {k});
  }

  method StepWrite(t: ActionThread, k: Key, data: seq<byte>, length: map<Key, nat>, ghost content: map<Key, seq<byte>>)
    returns (hung: bool)
    requires Uniform(t.Now(), length) && Represents(t.Now(), length, content) && k in length && |data| == length[k]
    modifies t
    ensures !hung && Uniform(t.Now(), length) && Represents(t.Now(), length, content[k := data])
    ensures t.cacheSize <= Max(old(t.cacheSize), Max(t.maxCacheSize, |data|))
  {
    ghost var s := t.Now();
    hung := t.Write(k, data, length);
    if data == [] {
      assert Holds(s, k, content[k]) && content[k] == data;
    }
    RepresentsWrite(s, t.Now(), length, content, k, data);
  }

  lemma {:induction false} RepliesAppend(content: map<Key, seq<byte>>, a: Access, run: seq<Access>)
    ensures Replies(content, [a] + run) == match a
      case ReadBytes(k, n) => [if k in content then content[k] else []] + Replies(content, run)
      case WriteBytes(k, data) => Replies(content[k := data], run)
      case FlushOne => Replies(content, run)
  {
    assert ([a] + run)[1..] == run;
  }

  /**
   * Any such run, on a cache that counts correctly, never spins, returns what is returned
   * without a cache, and keeps the counted size within the limit or the longest entry.
   */
  method RunAccesses(t: ActionThread, run: seq<Access>, length: map<Key, nat>, longest: nat, ghost content: map<Key, seq<byte>>)
    returns (replies: seq<seq<byte>>, hung: bool)
    requires Uniform(t.Now(), length) && Represents(t.Now(), length, content)
    requires forall i :: 0 <= i < |run| ==> OneLength(run[i], length)
    requires t.cacheSize <= Max(t.maxCacheSize, longest) && forall k :: k in length ==> length[k] <= longest
    modifies t
    ensures !hung && replies == Replies(content, run)
    ensures Uniform(t.Now(), length) && t.cacheSize <= Max(t.maxCacheSize, longest)
  {
    replies, hung := [], false;
    ghost var now := content;
    for i := 0 to |run|
      invariant !hung && Uniform(t.Now(), length) && Represents(t.Now(), length, now)
      invariant t.cacheSize <= Max(t.maxCacheSize, longest)
      invariant Replies(content, run) == replies + Replies(now, run[i..])
    {
      RepliesAppend(now, run[i], run[i + 1..]);
      assert run[i..] == [run[i]] + run[i + 1..];
      match run[i]
      case ReadBytes(k, n) =>
        var r;
        r, hung := StepRead(t, k, n, length, now);
        replies := replies + [r];
      case WriteBytes(k, data) =>
        hung := StepWrite(t, k, data, length, now);
        now := now[k := data];
      case FlushOne =>
        ghost var s := t.Now();
        t.Flush(length);
        StillRepresents(s, t.Now(), length, now, {});
    }
  }

  /** A shorter write to a cached offset makes the count too high, and the next entry that does not fit spins. */
  method ShorterWriteHangs() returns (hung: bool)
    ensures hung
  {
    var t := new ActionThread(10);
    var a, b := Key(File(0, 0), 0), Key(File(0, 0), 20);
    var length := map[a := 8, b := 8];
    hung := t.Write(a, [1, 2, 3, 4, 5, 6, 7, 8], length);
    hung := t.Write(a, [1, 2], length);
    hung := t.Write(b, [1, 2, 3, 4, 5, 6, 7, 8], length);
  }
}
