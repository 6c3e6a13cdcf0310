/** Bytes and the big-endian length prefix of the RPC stream. */
module Bytes {
  type byte = x: int | 0 <= x < 256

  const TWO_TO_THE_32 := 0x1_0000_0000

  /** base::WriteBigEndian on a uint32. */
  function BigEndian(n: nat): (r: seq<byte>)
    requires n < TWO_TO_THE_32
    ensures |r| == 4
  {
    [n / 0x100_0000, n / 0x1_0000 % 256, n / 0x100 % 256, n % 256]
  }

  /** base::ReadBigEndian into a uint32. */
  function FromBigEndian(b: seq<byte>): (n: nat)
    requires |b| == 4
    ensures n < TWO_TO_THE_32
  {
    var b0: int, b1: int, b2: int, b3: int := b[0], b[1], b[2], b[3];
    b0 * 0x100_0000 + b1 * 0x1_0000 + b2 * 0x100 + b3
  }

  lemma BigEndianRoundTrip(n: nat)
    requires n < TWO_TO_THE_32
    ensures FromBigEndian(BigEndian(n)) == n
  {
    var q1 := n / 256;
    var q2 := q1 / 256;
    var q3 := q2 / 256;
    DivideTwice(n, 0x100);
    DivideTwice(n, 0x1_0000);
    assert n == q1 * 256 + n % 256;
    assert q1 == q2 * 256 + q1 % 256;
    assert q2 == q3 * 256 + q2 % 256;
  }

  /** The number that bytes stand for in base 256, the most significant one first. */
  function Base256(b: seq<byte>): nat {
    if b == [] then 0 else Base256(b[..|b| - 1]) * 256 + b[|b| - 1]
  }

  lemma FromBigEndianIsBase256(b: seq<byte>)
    requires |b| == 4
    ensures FromBigEndian(b) == Base256(b)
  {
    assert b[..3][..2] == b[..2] && b[..2][..1] == b[..1] && b[..1][..0] == [];
    assert Base256(b[..0]) == 0;
    var b0: int, b1: int, b2: int := b[0], b[1], b[2];
    assert Base256(b[..1]) == b0;
    assert Base256(b[..2]) == b0 * 256 + b1;
    assert Base256(b[..3]) == (b0 * 256 + b1) * 256 + b2;
  }

  lemma BigEndianIsBase256(n: nat)
    requires n < TWO_TO_THE_32
    ensures Base256(BigEndian(n)) == n
  {
    BigEndianRoundTrip(n);
    FromBigEndianIsBase256(BigEndian(n));
  }

  lemma DivideTwice(n: nat, d: nat)
    requires d == 0x100 || d == 0x1_0000
    ensures n / (d * 256) == n / d / 256
  {
  }
}

/**
 The wire format of rpc_connection.cc: every message is sent as a four byte
 big-endian length followed by its serialized form.  The serializer is a
 parameter; what the receiver does with an arbitrary byte string is Deframe,
 and the lemmas say what that is on the prefixes of a stream of frames.
 */
module Framing {
  import opened Bytes
  import opened Options
  import opened Sequences

  const PREFIX: nat := 4

  /** The protobuf serializer and parser of one message type. */
  datatype Codec<!M(!new)> = Codec(encode: M -> seq<byte>, decode: seq<byte> -> Option<M>) {
    /** Parsing undoes serializing. */
    ghost predicate RoundTrips() {
      forall m :: decode(encode(m)) == Some(m)
    }

    /** No message has an empty serialized form (RpcMessage has required fields). */
    ghost predicate NonEmpty() {
      forall m :: encode(m) != []
    }
  }

  /** What CallMethod and OnServiceDone append: the length is cast to uint32. */
  function Frame<M(!new)>(codec: Codec<M>, m: M): (f: seq<byte>)
    ensures |f| == PREFIX + |codec.encode(m)|
  {
    BigEndian(|codec.encode(m)| % TWO_TO_THE_32) + codec.encode(m)
  }

  function Stream<M(!new)>(codec: Codec<M>, ms: seq<M>): seq<byte>
  {
    if ms == [] then [] else Frame(codec, ms[0]) + Stream(codec, ms[1..])
  }

  /** Every frame fits into limit bytes. */
  ghost predicate FramesFit<M(!new)>(codec: Codec<M>, ms: seq<M>, limit: nat)
  {
    forall i :: 0 <= i < |ms| ==> |Frame(codec, ms[i])| <= limit
  }

  /** How many of the frames lie wholly inside the first n bytes of the stream. */
  function CompleteCount<M(!new)>(codec: Codec<M>, ms: seq<M>, n: nat): (k: nat)
    ensures k <= |ms|
  {
    if ms == [] || n < |Frame(codec, ms[0])| then 0
    else 1 + CompleteCount(codec, ms[1..], n - |Frame(codec, ms[0])|)
  }

  /** One round of the loop in HandleReadResult on the buffered bytes b. */
  datatype Head<+M> = Incomplete | Stuck | Complete(message: M, size: nat)

  function FirstMessage<M(!new)>(codec: Codec<M>, b: seq<byte>): (h: Head<M>)
    ensures h.Complete? ==> PREFIX <= h.size <= |b|
  {
    if |b| <= PREFIX then Incomplete
    else
      var length := FromBigEndian(b[..PREFIX]);
      if |b| < (PREFIX + length) % TWO_TO_THE_32 then Incomplete
      else if |b| < PREFIX + length then Stuck  // the uint32 sum wrapped around
      else match codec.decode(b[PREFIX..PREFIX + length])
        case None => Stuck
        case Some(m) => Complete(m, PREFIX + length)
  }

  /** The messages a receiver that has been given exactly b has handed up. */
  function Deframe<M(!new)>(codec: Codec<M>, b: seq<byte>): seq<M>
    decreases |b|
  {
    match FirstMessage(codec, b)
    case Complete(m, n) => [m] + Deframe(codec, b[n..])
    case _ => []
  }

  /** The bytes that stay in its buffer. */
  function Leftover<M(!new)>(codec: Codec<M>, b: seq<byte>): (r: seq<byte>)
    ensures |r| <= |b|
    decreases |b|
  {
    match FirstMessage(codec, b)
    case Complete(m, n) => Leftover(codec, b[n..])
    case _ => b
  }

  /** Every complete frame parses, so that the receiving loop ends. */
  predicate Parseable<M(!new)>(codec: Codec<M>, b: seq<byte>)
    decreases |b|
  {
    match FirstMessage(codec, b)
    case Complete(m, n) => Parseable(codec, b[n..])
    case Incomplete => true
    case Stuck => false
  }

  // ---- Streams ----

  lemma {:induction false} StreamConcat<M(!new)>(codec: Codec<M>, ms: seq<M>, ns: seq<M>)
    ensures Stream(codec, ms + ns) == Stream(codec, ms) + Stream(codec, ns)
  {
    if ms == [] {
      assert ms + ns == ns;
    } else {
      calc {
        Stream(codec, ms + ns);
        { assert (ms + ns)[1..] == ms[1..] + ns; }
        Frame(codec, ms[0]) + Stream(codec, ms[1..] + ns);
        { StreamConcat(codec, ms[1..], ns); }
        Frame(codec, ms[0]) + (Stream(codec, ms[1..]) + Stream(codec, ns));
        Stream(codec, ms) + Stream(codec, ns);
      }
    }
  }

  lemma StreamSnoc<M(!new)>(codec: Codec<M>, ms: seq<M>, m: M)
    ensures Stream(codec, ms + [m]) == Stream(codec, ms) + Frame(codec, m)
  {
    StreamConcat(codec, ms, [m]);
    assert Stream(codec, [m]) == Frame(codec, m) + Stream(codec, []);
  }

  /** The first n bytes contain k complete frames and not the next one. */
  lemma {:induction false} CompleteCountCuts<M(!new)>(codec: Codec<M>, ms: seq<M>, n: nat)
    ensures var k := CompleteCount(codec, ms, n);
            && |Stream(codec, ms[..k])| <= n
            && (k < |ms| ==> n < |Stream(codec, ms[..k + 1])|)
  {
    if ms == [] || n < |Frame(codec, ms[0])| {
      if ms != [] {
        assert ms[..1] == [ms[0]];
        assert Stream(codec, [ms[0]]) == Frame(codec, ms[0]) + Stream(codec, []);
      }
    } else {
      var k := CompleteCount(codec, ms, n);
      CompleteCountCuts(codec, ms[1..], n - |Frame(codec, ms[0])|);
      assert ms[..k][1..] == ms[1..][..k - 1];
      if k < |ms| {
        assert ms[..k + 1][1..] == ms[1..][..k];
      }
    }
  }

  lemma {:induction false} AllComplete<M(!new)>(codec: Codec<M>, ms: seq<M>)
    ensures CompleteCount(codec, ms, |Stream(codec, ms)|) == |ms|
  {
    if ms != [] {
      AllComplete(codec, ms[1..]);
    }
  }

  /** A zero-length frame that ends the first n bytes is held back by the "<= 4" test. */
  ghost predicate HeldBack<M(!new)>(codec: Codec<M>, ms: seq<M>, n: nat)
  {
    var k := CompleteCount(codec, ms, n);
    k > 0 && codec.encode(ms[k - 1]) == [] && n == |Stream(codec, ms[..k])|
  }

  lemma FirstFrameMessage<M(!new)>(codec: Codec<M>, m: M, rest: seq<byte>)
    requires codec.RoundTrips()
    requires |Frame(codec, m)| < TWO_TO_THE_32
    ensures var b := Frame(codec, m) + rest;
            FirstMessage(codec, b) ==
              if |b| <= PREFIX then Incomplete else Complete(m, |Frame(codec, m)|)
  {
    var b := Frame(codec, m) + rest;
    FrameLength(codec, m, rest);
    if |b| > PREFIX {
      HeadOf(codec, b, |codec.encode(m)|, m);
    }
  }

  /** The prefix of a frame is read as the length of its body, and the body follows. */
  lemma FrameLength<M(!new)>(codec: Codec<M>, m: M, rest: seq<byte>)
    requires |Frame(codec, m)| < TWO_TO_THE_32
    ensures var b := Frame(codec, m) + rest;
            && FromBigEndian(b[..PREFIX]) == |codec.encode(m)|
            && b[PREFIX..PREFIX + |codec.encode(m)|] == codec.encode(m)
  {
    assert |codec.encode(m)| % TWO_TO_THE_32 == |codec.encode(m)|;
    PrefixedLength(|codec.encode(m)|, codec.encode(m), rest);
  }

  lemma PrefixedLength(length: nat, body: seq<byte>, rest: seq<byte>)
    requires length < TWO_TO_THE_32
    ensures FromBigEndian((BigEndian(length) + body + rest)[..PREFIX]) == length
    ensures (BigEndian(length) + body + rest)[PREFIX..PREFIX + |body|] == body
  {
    FrameParts(BigEndian(length), body, rest);
    BigEndianRoundTrip(length);
  }

  lemma HeadOf<M(!new)>(codec: Codec<M>, b: seq<byte>, length: nat, m: M)
    requires PREFIX < |b| && FromBigEndian(b[..PREFIX]) == length
    requires PREFIX + length <= |b| && PREFIX + length < TWO_TO_THE_32
    requires codec.decode(b[PREFIX..PREFIX + length]) == Some(m)
    ensures FirstMessage(codec, b) == Complete(m, PREFIX + length)
  {
  }

  lemma FrameParts(prefix: seq<byte>, body: seq<byte>, rest: seq<byte>)
    requires |prefix| == PREFIX
    ensures (prefix + body + rest)[..PREFIX] == prefix
    ensures (prefix + body + rest)[PREFIX..PREFIX + |body|] == body
  {
  }

  lemma ShortFrameIncomplete<M(!new)>(codec: Codec<M>, m: M, n: nat)
    requires n < |Frame(codec, m)| < TWO_TO_THE_32
    ensures FirstMessage(codec, Frame(codec, m)[..n]) == Incomplete
  {
    var b := Frame(codec, m)[..n];
    if PREFIX < n {
      FrameLength(codec, m, []);
      assert b[..PREFIX] == (Frame(codec, m) + [])[..PREFIX];
      HeadMissing(codec, b, |codec.encode(m)|);
    }
  }

  lemma HeadMissing<M(!new)>(codec: Codec<M>, b: seq<byte>, length: nat)
    requires PREFIX < |b| && FromBigEndian(b[..PREFIX]) == length && |b| < PREFIX + length < TWO_TO_THE_32
    ensures FirstMessage(codec, b) == Incomplete
  {
  }

  /** Adding a first frame shifts the held-back test by one message. */
  lemma HeldBackTail<M(!new)>(codec: Codec<M>, ms: seq<M>, n: nat)
    requires ms != [] && |Frame(codec, ms[0])| <= n
    ensures var f := |Frame(codec, ms[0])|;
            HeldBack(codec, ms, n) <==>
              if CompleteCount(codec, ms, n) == 1 then codec.encode(ms[0]) == [] && n == f
              else HeldBack(codec, ms[1..], n - f)
  {
    var k := CompleteCount(codec, ms, n);
    assert ms[..k][1..] == ms[1..][..k - 1];
    assert Stream(codec, ms[..k]) == Frame(codec, ms[0]) + Stream(codec, ms[1..][..k - 1]);
  }

  /**
   What the receiver makes of the first n bytes of a stream of frames: it
   never gets stuck, and it hands up exactly the complete messages, except
   that an empty message at the very end of the bytes is held back.
   */
  ghost predicate Receives<M(!new)>(codec: Codec<M>, ms: seq<M>, n: nat, limit: nat)
    requires n <= |Stream(codec, ms)|
  {
    var b := Stream(codec, ms)[..n];
    var k := CompleteCount(codec, ms, n);
    var held := HeldBack(codec, ms, n);
    && Parseable(codec, b)
    && Deframe(codec, b) == ms[..if held then k - 1 else k]
    && (if held then |Leftover(codec, b)| == PREFIX
        else |Stream(codec, ms[..k])| <= n
             && Leftover(codec, b) == b[|Stream(codec, ms[..k])|..]
             && (Leftover(codec, b) == [] || |Leftover(codec, b)| < limit))
  }

  lemma {:induction false} DeframeStream<M(!new)>(codec: Codec<M>, ms: seq<M>, n: nat, limit: nat)
    requires codec.RoundTrips()
    requires FramesFit(codec, ms, limit) && limit < TWO_TO_THE_32
    requires n <= |Stream(codec, ms)|
    ensures Receives(codec, ms, n, limit)
    decreases |ms|
  {
    if ms == [] {
      assert Stream(codec, ms)[..n] == [];
    } else if n < |Frame(codec, ms[0])| {
      ReceivesPart(codec, ms, n, limit);
    } else {
      DeframeStream(codec, ms[1..], n - |Frame(codec, ms[0])|, limit);
      if n <= PREFIX {
        ReceivesEmpty(codec, ms, n, limit);
      } else {
        ReceivesFrame(codec, ms, n, limit);
      }
    }
  }

  /** Less than a frame: nothing is handed up. */
  lemma ReceivesPart<M(!new)>(codec: Codec<M>, ms: seq<M>, n: nat, limit: nat)
    requires ms != [] && n < |Frame(codec, ms[0])| <= limit < TWO_TO_THE_32 && n <= |Stream(codec, ms)|
    ensures Receives(codec, ms, n, limit)
  {
    assert Stream(codec, ms)[..n] == Frame(codec, ms[0])[..n];
    ShortFrameIncomplete(codec, ms[0], n);
  }

  /** Just the prefix of an empty message: it is held back. */
  lemma ReceivesEmpty<M(!new)>(codec: Codec<M>, ms: seq<M>, n: nat, limit: nat)
    requires ms != [] && |Frame(codec, ms[0])| == PREFIX == n <= |Stream(codec, ms)|
    ensures Receives(codec, ms, n, limit)
  {
    HeldBackTail(codec, ms, n);
    CompleteTail(codec, ms, n);
    assert CompleteCount(codec, ms[1..], 0) == 0;
  }

  /** A whole frame and more than its prefix: its message, and then what the rest gives. */
  lemma ReceivesFrame<M(!new)>(codec: Codec<M>, ms: seq<M>, n: nat, limit: nat)
    requires codec.RoundTrips() && ms != []
    requires PREFIX < n <= |Stream(codec, ms)| && |Frame(codec, ms[0])| <= n && |Frame(codec, ms[0])| < TWO_TO_THE_32
    requires Receives(codec, ms[1..], n - |Frame(codec, ms[0])|, limit)
    ensures Receives(codec, ms, n, limit)
  {
    var f, rest := Frame(codec, ms[0]), Stream(codec, ms[1..]);
    var b := Stream(codec, ms)[..n];
    assert b == f + rest[..n - |f|];
    FirstFrameMessage(codec, ms[0], rest[..n - |f|]);
    HeldBackTail(codec, ms, n);
    DeframeStreamStep(codec, ms, n);
    assert Deframe(codec, b) == [ms[0]] + Deframe(codec, b[|f|..]);
    assert Leftover(codec, b) == Leftover(codec, b[|f|..]);
  }

  /** The inductive step of DeframeStream on the shapes of the results. */
  lemma DeframeStreamStep<M(!new)>(codec: Codec<M>, ms: seq<M>, n: nat)
    requires ms != [] && |Frame(codec, ms[0])| <= n <= |Stream(codec, ms)|
    ensures var f := |Frame(codec, ms[0])|;
            var k := CompleteCount(codec, ms, n);
            && k == 1 + CompleteCount(codec, ms[1..], n - f)
            && ms[..k] == [ms[0]] + ms[1..][..k - 1]
            && (k > 1 ==> ms[..k - 1] == [ms[0]] + ms[1..][..k - 2])
            && |Stream(codec, ms[..k])| == f + |Stream(codec, ms[1..][..k - 1])|
            && Stream(codec, ms)[..n][f..] == Stream(codec, ms[1..])[..n - f]
            && (|Stream(codec, ms[..k])| <= n ==>
                  Stream(codec, ms)[..n][|Stream(codec, ms[..k])|..]
                  == Stream(codec, ms[1..])[..n - f][|Stream(codec, ms[1..][..k - 1])|..])
  {
    var f, rest, k := Frame(codec, ms[0]), Stream(codec, ms[1..]), CompleteCount(codec, ms, n);
    CompleteTail(codec, ms, n);
    StreamTail(codec, ms, k);
    PrefixTail(f, rest, n);
    if |Stream(codec, ms[..k])| <= n {
      DropTail(f, rest, n, |Stream(codec, ms[1..][..k - 1])|);
    }
  }

  /** The complete messages with the first frame taken off. */
  lemma CompleteTail<M(!new)>(codec: Codec<M>, ms: seq<M>, n: nat)
    requires ms != [] && |Frame(codec, ms[0])| <= n
    ensures var k := CompleteCount(codec, ms, n);
            && k == 1 + CompleteCount(codec, ms[1..], n - |Frame(codec, ms[0])|)
            && ms[..k] == [ms[0]] + ms[1..][..k - 1]
            && (k > 1 ==> ms[..k - 1] == [ms[0]] + ms[1..][..k - 2])
  {
  }

  /** Their bytes with the first frame taken off. */
  lemma StreamTail<M(!new)>(codec: Codec<M>, ms: seq<M>, k: nat)
    requires 0 < k <= |ms|
    ensures |Stream(codec, ms[..k])| == |Frame(codec, ms[0])| + |Stream(codec, ms[1..][..k - 1])|
  {
    assert ms[..k][1..] == ms[1..][..k - 1];
  }

  lemma PrefixTail(f: seq<byte>, rest: seq<byte>, n: nat)
    requires |f| <= n <= |f| + |rest|
    ensures (f + rest)[..n][|f|..] == rest[..n - |f|]
  {
  }

  /** Dropping a first part that holds f is dropping the rest of it after f. */
  lemma DropTail(f: seq<byte>, rest: seq<byte>, n: nat, m: nat)
    requires |f| <= n <= |f| + |rest| && |f| + m <= n
    ensures (f + rest)[..n][|f| + m..] == rest[..n - |f|][m..]
  {
  }

  /** With a serializer that never yields an empty form nothing is held back. */
  lemma DeframeNonEmptyStream<M(!new)>(codec: Codec<M>, ms: seq<M>, n: nat, limit: nat)
    requires codec.RoundTrips() && codec.NonEmpty()
    requires FramesFit(codec, ms, limit) && limit < TWO_TO_THE_32
    requires n <= |Stream(codec, ms)|
    ensures var b := Stream(codec, ms)[..n];
            && Parseable(codec, b)
            && Deframe(codec, b) == ms[..CompleteCount(codec, ms, n)]
            && (Leftover(codec, b) == [] || |Leftover(codec, b)| < limit)
    ensures n == |Stream(codec, ms)| ==> Deframe(codec, Stream(codec, ms)) == ms
  {
    DeframeStream(codec, ms, n, limit);
    AllComplete(codec, ms);
    assert Stream(codec, ms)[..|Stream(codec, ms)|] == Stream(codec, ms);
    assert ms[..|ms|] == ms;
  }

  /** Exactly when the receiver has handed up every complete message. */
  lemma EverythingCompleteIsHandedUp<M(!new)>(codec: Codec<M>, ms: seq<M>, n: nat, limit: nat)
    requires codec.RoundTrips()
    requires FramesFit(codec, ms, limit) && limit < TWO_TO_THE_32
    requires n <= |Stream(codec, ms)|
    ensures Deframe(codec, Stream(codec, ms)[..n]) == ms[..CompleteCount(codec, ms, n)]
            <==> !HeldBack(codec, ms, n)
  {
    DeframeStream(codec, ms, n, limit);
    if HeldBack(codec, ms, n) {
      var k := CompleteCount(codec, ms, n);
      assert |ms[..k - 1]| != |ms[..k]|;
    }
  }

  /** A serializer that has an empty form, as one for a message without required fields would. */
  const FLAG_CODEC: Codec<bool> :=
    Codec(flag => if flag then [1] else [], b => if b == [] then Some(false) else if b == [1] then Some(true) else None)

  /** A message with an empty form waits in the buffer until the next one arrives. */
  lemma EmptyMessageIsHeldBack()
    ensures CompleteCount(FLAG_CODEC, [false], |Stream(FLAG_CODEC, [false])|) == 1
    ensures Deframe(FLAG_CODEC, Stream(FLAG_CODEC, [false])) == []
    ensures Deframe(FLAG_CODEC, Stream(FLAG_CODEC, [false, true])) == [false, true]
  {
    assert FLAG_CODEC.RoundTrips();
    AllComplete(FLAG_CODEC, [false]);
    EmptyAlone();
    EmptyThenFlag();
  }

  /** A complete frame whose body no message has: the receiving loop goes round for ever. */
  lemma UnparseableFrameIsStuck()
    ensures FirstMessage(FLAG_CODEC, [0, 0, 0, 1, 2]) == Stuck
    ensures !Parseable(FLAG_CODEC, [0, 0, 0, 1, 2])
  {
    var b: seq<byte> := [0, 0, 0, 1, 2];
    assert b[..4] == [0, 0, 0, 1];
    assert b[4..5] == [2];
  }

  lemma EmptyAlone()
    ensures Deframe(FLAG_CODEC, Stream(FLAG_CODEC, [false])) == []
  {
    assert Stream(FLAG_CODEC, [false]) == Frame(FLAG_CODEC, false) + Stream(FLAG_CODEC, []);
    assert |Frame(FLAG_CODEC, false)| == PREFIX;
  }

  lemma EmptyThenFlag()
    ensures Deframe(FLAG_CODEC, Stream(FLAG_CODEC, [false, true])) == [false, true]
  {
    var ms := [false, true];
    var all := Stream(FLAG_CODEC, ms);
    assert FLAG_CODEC.RoundTrips();
    assert FramesFit(FLAG_CODEC, ms, 5);
    AllComplete(FLAG_CODEC, ms);
    DeframeStream(FLAG_CODEC, ms, |all|, 5);
    assert all[..|all|] == all;
    assert !HeldBack(FLAG_CODEC, ms, |all|);
    assert ms[..2] == ms;
  }

  // ---- Chunks ----

  /** A complete first message is not changed by the bytes that come after it. */
  lemma FirstMessageExtends<M(!new)>(codec: Codec<M>, a: seq<byte>, b: seq<byte>)
    requires FirstMessage(codec, a).Complete?
    ensures FirstMessage(codec, a + b) == FirstMessage(codec, a)
  {
    var h := FirstMessage(codec, a);
    assert (a + b)[..PREFIX] == a[..PREFIX];
    assert (a + b)[PREFIX..h.size] == a[PREFIX..h.size];
  }

  /** Two reads amount to one read of all the bytes: nothing depends on the split. */
  lemma {:induction false} ChunkingIndependence<M(!new)>(codec: Codec<M>, a: seq<byte>, b: seq<byte>)
    requires Parseable(codec, a)
    ensures Deframe(codec, a + b) == Deframe(codec, a) + Deframe(codec, Leftover(codec, a) + b)
    ensures Leftover(codec, a + b) == Leftover(codec, Leftover(codec, a) + b)
    ensures Parseable(codec, a + b) == Parseable(codec, Leftover(codec, a) + b)
    decreases |a|
  {
    var h := FirstMessage(codec, a);
    if h.Complete? {
      FirstMessageExtends(codec, a, b);
      var rest := a[h.size..];
      assert (a + b)[h.size..] == rest + b;
      ChunkingIndependence(codec, rest, b);
      Associative([h.message], Deframe(codec, rest), Deframe(codec, Leftover(codec, rest) + b));
    }
  }

  /** The messages handed up by a receiver that is given the chunks one after another. */
  function DeframeChunks<M(!new)>(codec: Codec<M>, chunks: seq<seq<byte>>): (r: (seq<M>, seq<byte>))
  {
    if chunks == [] then ([], []) else
      var (ms, kept) := DeframeChunks(codec, chunks[..|chunks| - 1]);
      var b := kept + chunks[|chunks| - 1];
      (ms + Deframe(codec, b), Leftover(codec, b))
  }

  /** Any split of a stream of frames into reads gives the complete messages so far. */
  lemma AnySplitDelivers<M(!new)>(
    codec: Codec<M>, ms: seq<M>, chunks: seq<seq<byte>>, limit: nat)
    requires codec.RoundTrips() && codec.NonEmpty()
    requires FramesFit(codec, ms, limit) && limit < TWO_TO_THE_32
    requires Flatten(chunks) <= Stream(codec, ms)
    ensures DeframeChunks(codec, chunks)
            == (ms[..CompleteCount(codec, ms, |Flatten(chunks)|)], Leftover(codec, Flatten(chunks)))
  {
    var all := Flatten(chunks);
    forall i | 0 <= i <= |chunks|
      ensures Parseable(codec, Flatten(chunks[..i]))
    {
      FlattenSplit(chunks, i);
      var before := Flatten(chunks[..i]);
      assert before == Stream(codec, ms)[..|before|];
      DeframeNonEmptyStream(codec, ms, |before|, limit);
    }
    ChunksAsOne(codec, chunks);
    assert all == Stream(codec, ms)[..|all|];
    DeframeNonEmptyStream(codec, ms, |all|, limit);
  }

  /** Reads of parseable bytes amount to one read of all of them. */
  lemma {:induction false} ChunksAsOne<M(!new)>(codec: Codec<M>, chunks: seq<seq<byte>>)
    requires forall i :: 0 <= i <= |chunks| ==> Parseable(codec, Flatten(chunks[..i]))
    ensures DeframeChunks(codec, chunks) == (Deframe(codec, Flatten(chunks)), Leftover(codec, Flatten(chunks)))
    decreases |chunks|
  {
    if chunks != [] {
      var front := chunks[..|chunks| - 1];
      assert forall i :: 0 <= i <= |front| ==> front[..i] == chunks[..i];
      ChunksAsOne(codec, front);
      FlattenSnoc(front, chunks[|chunks| - 1]);
      assert chunks == front + [chunks[|chunks| - 1]];
      LastChunk(codec, chunks, Deframe(codec, Flatten(front)));
    }
  }

  /** One more chunk after some that were handled as one read of all their bytes. */
  lemma LastChunk<M(!new)>(codec: Codec<M>, chunks: seq<seq<byte>>, ms: seq<M>)
    requires chunks != []
    requires var before := Flatten(chunks[..|chunks| - 1]);
             && Parseable(codec, before) && ms == Deframe(codec, before)
             && DeframeChunks(codec, chunks[..|chunks| - 1]) == (ms, Leftover(codec, before))
    ensures var all := Flatten(chunks[..|chunks| - 1]) + chunks[|chunks| - 1];
            DeframeChunks(codec, chunks) == (Deframe(codec, all), Leftover(codec, all))
  {
    ChunkingIndependence(codec, Flatten(chunks[..|chunks| - 1]), chunks[|chunks| - 1]);
  }
}
