/** Every interleaving of one direction of a Noise session: the writer seals chunks, the transport
moves bytes in any portions, the reader calls `Read` with any buffer sizes. */
module NoiseRuns {
  import opened Wrappers
  import opened Bits
  import opened NoiseTransport

  /** `accepted` is the plaintext sealed so far, `todo` the rest of the `Write` call in progress,
      `outbox` the sealed bytes not yet handed to the transport, `wire` the bytes in transit. */
  datatype State = State(accepted: seq<byte>, todo: seq<byte>, outbox: seq<byte>, sendNonce: nat,
                         writeError: Option<Error>, wire: seq<byte>, recvNonce: nat, readBuf: seq<byte>,
                         delivered: seq<byte>, readError: Option<Error>)

  const Start := State([], [], [], 0, None, [], 0, [], [], None)

  /** With `cut`, the raw connection fails, at a deadline say, once the read has got that many bytes. */
  datatype Event = WriteCall(p: seq<byte>) | Seal | Transmit(k: nat) | Read(n: nat, cut: Option<nat>)

  /** `None`: the event cannot happen now (the call is blocked or the lock is taken). */
  function Step(c: Cipher, key: Key, s: State, e: Event): Option<State> {
    match e
    case WriteCall(p) =>
      if s.todo == [] && s.outbox == [] then Some(s.(todo := p, writeError := None)) else None
    case Seal =>
      if s.todo == [] || s.outbox != [] then None
      else if s.sendNonce > MAX_NONCE then Some(s.(todo := [], writeError := Some(NonceExhausted)))
      else
        var chunk := Chunk(s.todo);
        (match WriteFrame(c.seal(key, s.sendNonce, chunk))
         case Err(x) => Some(s.(todo := [], sendNonce := s.sendNonce + 1, writeError := Some(x)))
         case Ok(frame) => Some(s.(accepted := s.accepted + chunk, todo := s.todo[|chunk|..], outbox := frame,
                                   sendNonce := s.sendNonce + 1)))
    case Transmit(k) =>
      if 0 < k <= |s.outbox| then Some(s.(wire := s.wire + s.outbox[..k], outbox := s.outbox[k..])) else None
    case Read(n, cut) =>
      if s.readBuf == [] && cut == None && ReadFrame(s.wire).Incomplete? then None
      else
        var r := ReadOnce(c, key, s.readBuf, s.recvNonce, s.wire, n, cut);
        var s' := s.(wire := r.stream, recvNonce := r.nonce, readBuf := r.readBuf);
        match r.result
        case Ok(data) => Some(s'.(delivered := s.delivered + data))
        case Err(x) => Some(s'.(readError := Some(x)))
  }

  function Run(c: Cipher, key: Key, s: State, events: seq<Event>): Option<State>
    decreases |events|
  {
    if events == [] then Some(s)
    else
      match Step(c, key, s, events[0])
      case None => None
      case Some(s') => Run(c, key, s', events[1..])
  }

  // ---- the frames in flight ----

  predicate Sizes(chunks: seq<seq<byte>>) {
    forall i :: 0 <= i < |chunks| ==> 1 <= |chunks[i]| <= MAX_PLAINTEXT
  }

  function Flat(chunks: seq<seq<byte>>): seq<byte> {
    if chunks == [] then [] else chunks[0] + Flat(chunks[1..])
  }

  function FrameOf(c: Cipher, key: Key, nonce: nat, chunk: seq<byte>): seq<byte> {
    var ct := c.seal(key, nonce, chunk);
    if |ct| <= MAX_MESSAGE then Header(|ct|) + ct else []
  }

  function Frames(c: Cipher, key: Key, nonce: nat, chunks: seq<seq<byte>>): seq<byte>
    decreases |chunks|
  {
    if chunks == [] then [] else FrameOf(c, key, nonce, chunks[0]) + Frames(c, key, nonce + 1, chunks[1..])
  }

  /** The wire and the outbox hold exactly the frames of `chunks`, sealed under consecutive nonces
      that start where the reader is; the plaintext is all accounted for. */
  ghost predicate InFlight(c: Cipher, key: Key, s: State, chunks: seq<seq<byte>>) {
    && Sizes(chunks)
    && s.wire + s.outbox == Frames(c, key, s.recvNonce, chunks)
    && s.sendNonce == s.recvNonce + |chunks| <= MAX_NONCE + 1
    && s.accepted == s.delivered + s.readBuf + Flat(chunks)
    && (s.readError == None || s.readError == Some(RawFailed))
    && (s.writeError == None || s.writeError == Some(NonceExhausted))
  }

  lemma {:induction false} FlatConcat(a: seq<seq<byte>>, b: seq<seq<byte>>)
    ensures Flat(a + b) == Flat(a) + Flat(b)
  {
    if a == [] {
      assert a + b == b;
    } else {
      assert (a + b)[1..] == a[1..] + b;
      FlatConcat(a[1..], b);
    }
  }

  lemma FlatOne(chunk: seq<byte>)
    ensures Flat([chunk]) == chunk
  {
    assert [chunk][1..] == [];
  }

  lemma {:induction false} FramesConcat(c: Cipher, key: Key, nonce: nat, a: seq<seq<byte>>, b: seq<seq<byte>>)
    ensures Frames(c, key, nonce, a + b) == Frames(c, key, nonce, a) + Frames(c, key, nonce + |a|, b)
    decreases |a|
  {
    if a == [] {
      assert a + b == b;
    } else {
      assert (a + b)[1..] == a[1..] + b;
      FramesConcat(c, key, nonce + 1, a[1..], b);
    }
  }

  lemma FramesOne(c: Cipher, key: Key, nonce: nat, chunk: seq<byte>)
    ensures Frames(c, key, nonce, [chunk]) == FrameOf(c, key, nonce, chunk)
  {
    assert [chunk][1..] == [];
  }

  /** Between honest peers every frame carries 17 to 65519 bytes of ciphertext, so neither size
      error can be raised. */
  lemma FrameLength(c: Cipher, key: Key, nonce: nat, chunk: seq<byte>)
    requires Sound(c) && 1 <= |chunk| <= MAX_PLAINTEXT
    ensures 17 <= |c.seal(key, nonce, chunk)| <= 65519
    ensures WriteFrame(c.seal(key, nonce, chunk)) == Ok(FrameOf(c, key, nonce, chunk))
  {}

  // ---- one step ----

  lemma SealKeeps(c: Cipher, key: Key, s: State, chunks: seq<seq<byte>>) returns (chunks': seq<seq<byte>>)
    requires Sound(c) && InFlight(c, key, s, chunks)
    requires Step(c, key, s, Seal).Some?
    ensures InFlight(c, key, Step(c, key, s, Seal).value, chunks')
  {
    hide Sound, ReadOnce, ReadFrame, Frames, Flat, FrameOf, WriteFrame;
    if s.sendNonce > MAX_NONCE {
      return chunks;
    }
    var chunk := Chunk(s.todo);
    FrameLength(c, key, s.sendNonce, chunk);
    chunks' := chunks + [chunk];
    FramesConcat(c, key, s.recvNonce, chunks, [chunk]);
    FramesOne(c, key, s.sendNonce, chunk);
    FlatConcat(chunks, [chunk]);
    FlatOne(chunk);
    var s' := Step(c, key, s, Seal).value;
    assert s'.wire + s'.outbox == (s.wire + s.outbox) + FrameOf(c, key, s.sendNonce, chunk);
  }

  lemma WriteCallKeeps(c: Cipher, key: Key, s: State, chunks: seq<seq<byte>>, p: seq<byte>)
    requires InFlight(c, key, s, chunks)
    requires Step(c, key, s, WriteCall(p)).Some?
    ensures InFlight(c, key, Step(c, key, s, WriteCall(p)).value, chunks)
  {}

  lemma TransmitKeeps(c: Cipher, key: Key, s: State, chunks: seq<seq<byte>>, k: nat)
    requires InFlight(c, key, s, chunks)
    requires Step(c, key, s, Transmit(k)).Some?
    ensures InFlight(c, key, Step(c, key, s, Transmit(k)).value, chunks)
  {
    var s' := Step(c, key, s, Transmit(k)).value;
    assert s'.wire + s'.outbox == s.wire + s.outbox by {
      assert s.outbox == s.outbox[..k] + s.outbox[k..];
    }
  }

  /** A frame taken off the front of the wire is the first one in flight. */
  lemma FirstFrame(c: Cipher, key: Key, s: State, chunks: seq<seq<byte>>)
    requires Sound(c) && InFlight(c, key, s, chunks)
    requires !ReadFrame(s.wire).Incomplete?
    ensures chunks != []
    ensures ReadFrame(s.wire).Frame? && ReadFrame(s.wire).payload == c.seal(key, s.recvNonce, chunks[0])
    ensures ReadFrame(s.wire).rest + s.outbox == Frames(c, key, s.recvNonce + 1, chunks[1..])
  {
    var all := s.wire + s.outbox;
    ReadPrefix(s.wire, s.outbox);
    assert chunks != [];
    FrameLength(c, key, s.recvNonce, chunks[0]);
    ReadWriteFrame(c.seal(key, s.recvNonce, chunks[0]), Frames(c, key, s.recvNonce + 1, chunks[1..]));
  }

  /** What can be read from the front of a stream does not depend on what follows. */
  lemma ReadPrefix(stream: seq<byte>, more: seq<byte>)
    requires !ReadFrame(stream).Incomplete?
    ensures match ReadFrame(stream)
            case Frame(payload, rest) => ReadFrame(stream + more) == Frame(payload, rest + more)
            case Empty(rest) => ReadFrame(stream + more) == Empty(rest + more)
            case Incomplete(_) => true
  {
    var n := Length(stream[0], stream[1]);
    assert (stream + more)[2..] == stream[2..] + more;
    if n != 0 {
      assert (stream + more)[2..2 + n] == stream[2..2 + n];
      assert (stream + more)[2 + n..] == stream[2 + n..] + more;
    }
  }

  /** The read fails on the raw connection, with some bytes of a frame already taken. */
  predicate Spoils(s: State, e: Event) {
    e.Read? && e.cut.Some? && s.readBuf == []
    && var there := Available(s.wire, e.cut);
       there != [] && ReadFrame(there).Incomplete?
  }

  /** The read fails on the raw connection, with or without bytes taken. */
  predicate CutOff(s: State, e: Event) {
    e.Read? && e.cut.Some? && s.readBuf == [] && ReadFrame(Available(s.wire, e.cut)).Incomplete?
  }

  lemma CutOffStep(c: Cipher, key: Key, s: State, e: Event)
    requires CutOff(s, e)
    ensures Step(c, key, s, e) == Some(s.(wire := s.wire[|Available(s.wire, e.cut)|..], readError := Some(RawFailed)))
  {
    hide ReadFrame, Available;
  }

  /** A read that finds a whole frame does what it would do with no cut. */
  lemma UncutRead(c: Cipher, key: Key, nonce: nat, wire: seq<byte>, n: nat, cut: Option<nat>)
    requires !ReadFrame(Available(wire, cut)).Incomplete?
    ensures ReadOnce(c, key, [], nonce, wire, n, cut) == ReadOnce(c, key, [], nonce, wire, n, None) && !ReadFrame(wire).Incomplete?
  {
    hide ReadFrame;
    var there := Available(wire, cut);
    var later := wire[|there|..];
    assert wire == there + later && wire[|wire|..] == [];
    assert Available(wire, None) == wire;
    ReadPrefix(there, later);
    match ReadFrame(there) {
      case Frame(_, rest) => assert rest + later + [] == rest + later;
      case Empty(rest) => assert rest + later + [] == rest + later;
    }
  }

  lemma UncutStep(c: Cipher, key: Key, s: State, e: Event)
    requires e.Read? && !CutOff(s, e)
    ensures Step(c, key, s, e) == Step(c, key, s, Read(e.n, None))
  {
    hide ReadFrame;
    if s.readBuf == [] && e.cut.Some? {
      hide ReadOnce, Available;
      UncutRead(c, key, s.recvNonce, s.wire, e.n, e.cut);
    }
  }

  lemma ReadKeeps(c: Cipher, key: Key, s: State, chunks: seq<seq<byte>>, n: nat, cut: Option<nat>) returns (chunks': seq<seq<byte>>)
    requires Sound(c) && InFlight(c, key, s, chunks)
    requires Step(c, key, s, Read(n, cut)).Some? && !Spoils(s, Read(n, cut))
    ensures InFlight(c, key, Step(c, key, s, Read(n, cut)).value, chunks')
  {
    hide Sound, ReadFrame, ReadOnce, Frames, Available;
    if CutOff(s, Read(n, cut)) {
      CutOffStep(c, key, s, Read(n, cut));
      chunks' := chunks;
    } else {
      UncutStep(c, key, s, Read(n, cut));
      chunks' := UncutKeeps(c, key, s, chunks, n);
    }
  }

  lemma UncutKeeps(c: Cipher, key: Key, s: State, chunks: seq<seq<byte>>, n: nat) returns (chunks': seq<seq<byte>>)
    requires Sound(c) && InFlight(c, key, s, chunks)
    requires Step(c, key, s, Read(n, None)).Some?
    ensures InFlight(c, key, Step(c, key, s, Read(n, None)).value, chunks')
  {
    hide Sound, ReadFrame, ReadOnce, Frames;
    var s' := Step(c, key, s, Read(n, None)).value;
    if s.readBuf != [] {
      FromSpill(c, key, s, n);
      return chunks;
    }
    FirstFrame(c, key, s, chunks);
    var text := chunks[0];
    Opens(c, key, s.recvNonce, text);
    FromFrame(c, key, s.recvNonce, s.wire, text, n);
    TextSplit(s.delivered, text, Min(n, |text|));
    assert Flat(chunks) == text + Flat(chunks[1..]);
    chunks' := chunks[1..];
  }

  lemma {:induction false} FramesLength(c: Cipher, key: Key, nonce: nat, chunks: seq<seq<byte>>)
    requires Sound(c) && Sizes(chunks)
    ensures |Frames(c, key, nonce, chunks)| == |Flat(chunks)| + 18 * |chunks|
    decreases |chunks|
  {
    hide Sound;
    if chunks != [] {
      FrameLength(c, key, nonce, chunks[0]);
      SealLength(c, key, nonce, chunks[0]);
      FramesLength(c, key, nonce + 1, chunks[1..]);
    }
  }

  lemma SealLength(c: Cipher, key: Key, nonce: nat, chunk: seq<byte>)
    requires Sound(c)
    ensures |c.seal(key, nonce, chunk)| == |chunk| + TAG
  {}

  /** A read that fails on the raw connection keeps the stream accountable, as frames under the next
      nonces, exactly when it has taken nothing. */
  lemma CutKeepsIff(c: Cipher, key: Key, s: State, chunks: seq<seq<byte>>, e: Event)
    requires Sound(c) && InFlight(c, key, s, chunks) && CutOff(s, e)
    ensures Step(c, key, s, e).Some?
    ensures (exists chunks' :: InFlight(c, key, Step(c, key, s, e).value, chunks')) <==> !Spoils(s, e)
  {
    hide Sound, ReadFrame, Frames, Flat;
    CutOffStep(c, key, s, e);
    var s' := Step(c, key, s, e).value;
    if !Spoils(s, e) {
      assert InFlight(c, key, s', chunks);
    }
    if chunks' :| InFlight(c, key, s', chunks') {
      FramesLength(c, key, s.recvNonce, chunks);
      FramesLength(c, key, s.recvNonce, chunks');
      assert |s.accepted| == |s.delivered + s.readBuf| + |Flat(chunks)| == |s.delivered + s.readBuf| + |Flat(chunks')|;
      assert |s'.wire + s'.outbox| == |s.wire + s.outbox|;
    }
  }

  lemma TextSplit(delivered: seq<byte>, text: seq<byte>, k: nat)
    requires k <= |text|
    ensures delivered + text[..k] + text[k..] == delivered + text
  {
    assert text == text[..k] + text[k..];
  }

  lemma FromSpill(c: Cipher, key: Key, s: State, n: nat)
    requires s.readBuf != []
    ensures Step(c, key, s, Read(n, None)).Some?
    ensures var s' := Step(c, key, s, Read(n, None)).value;
            s' == s.(readBuf := s'.readBuf, delivered := s'.delivered) && s'.delivered + s'.readBuf == s.delivered + s.readBuf
  {
    TextSplit(s.delivered, s.readBuf, Min(n, |s.readBuf|));
  }

  lemma FromFrame(c: Cipher, key: Key, nonce: nat, wire: seq<byte>, text: seq<byte>, n: nat)
    requires ReadFrame(wire).Frame? && nonce <= MAX_NONCE && c.open(key, nonce, ReadFrame(wire).payload) == Some(text) && text != []
    ensures var k := Min(n, |text|);
            ReadOnce(c, key, [], nonce, wire, n, None) == Received(Ok(text[..k]), text[k..], nonce + 1, ReadFrame(wire).rest)
  {
    hide ReadFrame;
    assert ReadFrame(wire).rest + [] == ReadFrame(wire).rest;
  }

  lemma Opens(c: Cipher, key: Key, nonce: nat, text: seq<byte>)
    requires Sound(c)
    ensures c.open(key, nonce, c.seal(key, nonce, text)) == Some(text)
  {}

  lemma StepKeeps(c: Cipher, key: Key, s: State, chunks: seq<seq<byte>>, e: Event) returns (chunks': seq<seq<byte>>)
    requires Sound(c) && InFlight(c, key, s, chunks)
    requires Step(c, key, s, e).Some? && !Spoils(s, e)
    ensures InFlight(c, key, Step(c, key, s, e).value, chunks')
  {
    hide Spoils, Step, InFlight, Sound;
    match e
    case WriteCall(p) => WriteCallKeeps(c, key, s, chunks, p); chunks' := chunks;
    case Seal => chunks' := SealKeeps(c, key, s, chunks);
    case Transmit(k) => TransmitKeeps(c, key, s, chunks, k); chunks' := chunks;
    case Read(n, cut) => chunks' := ReadKeeps(c, key, s, chunks, n, cut);
  }

  // ---- whole runs ----

  /** No read of the run fails on the raw connection with bytes of a frame taken. */
  predicate Unspoilt(c: Cipher, key: Key, s: State, events: seq<Event>)
    decreases |events|
  {
    events == [] || (!Spoils(s, events[0]) && match Step(c, key, s, events[0])
                                              case None => true
                                              case Some(s') => Unspoilt(c, key, s', events[1..]))
  }

  lemma {:induction false} RunKeeps(c: Cipher, key: Key, s: State, chunks: seq<seq<byte>>, events: seq<Event>)
    returns (chunks': seq<seq<byte>>)
    requires Sound(c) && InFlight(c, key, s, chunks)
    requires Run(c, key, s, events).Some? && Unspoilt(c, key, s, events)
    ensures InFlight(c, key, Run(c, key, s, events).value, chunks')
    decreases |events|
  {
    chunks' := chunks;
    if events != [] {
      var next := StepKeeps(c, key, s, chunks, events[0]);
      chunks' := RunKeeps(c, key, Step(c, key, s, events[0]).value, next, events[1..]);
    }
  }

  /** Whatever the interleaving and whatever the sizes: the bytes delivered, then the spill buffer,
      then the plaintext of the frames in flight are the bytes sealed, in order; the two nonces
      differ by the number of frames in flight; reads only ever fail on the raw connection and writes
      because the nonces ran out. */
  lemma NothingLost(c: Cipher, key: Key, events: seq<Event>)
    requires Sound(c) && Run(c, key, Start, events).Some? && Unspoilt(c, key, Start, events)
    ensures exists chunks :: InFlight(c, key, Run(c, key, Start, events).value, chunks)
  {
    assert InFlight(c, key, Start, []);
    var chunks := RunKeeps(c, key, Start, [], events);
  }

  /** The delivered bytes are always a prefix of the sealed ones. */
  lemma DeliveredInOrder(c: Cipher, key: Key, events: seq<Event>)
    requires Sound(c) && Run(c, key, Start, events).Some? && Unspoilt(c, key, Start, events)
    ensures var s := Run(c, key, Start, events).value;
            s.delivered <= s.accepted && (s.readError == None || s.readError == Some(RawFailed))
  {
    hide Run, Unspoilt, Sound, Frames;
    NothingLost(c, key, events);
    var s := Run(c, key, Start, events).value;
    var chunks :| InFlight(c, key, s, chunks);
    assert s.accepted == s.delivered + (s.readBuf + Flat(chunks));
  }

  /** Liveness: once the transport has handed everything over, a reader that has not seen all of it
      is not blocked, and each call with a nonempty buffer brings it at least one byte further. */
  lemma ReaderProgresses(c: Cipher, key: Key, events: seq<Event>, n: nat)
    requires Sound(c) && Run(c, key, Start, events).Some? && Unspoilt(c, key, Start, events) && n > 0
    requires var s := Run(c, key, Start, events).value; s.outbox == [] && s.delivered != s.accepted
    ensures var s := Run(c, key, Start, events).value;
            var next := Step(c, key, s, Read(n, None));
            next.Some? && |next.value.delivered| > |s.delivered|
  {
    NothingLost(c, key, events);
    var s := Run(c, key, Start, events).value;
    var chunks :| InFlight(c, key, s, chunks);
    hide Run, InFlight, Sound;
    if s.readBuf == [] {
      Waiting(c, key, s, chunks);
      FirstFrame(c, key, s, chunks);
      Opens(c, key, s.recvNonce, chunks[0]);
      NonceLeft(c, key, s, chunks);
    }
  }

  lemma Waiting(c: Cipher, key: Key, s: State, chunks: seq<seq<byte>>)
    requires Sound(c) && InFlight(c, key, s, chunks)
    requires s.outbox == [] && s.readBuf == [] && s.delivered != s.accepted
    ensures chunks != [] && !ReadFrame(s.wire).Incomplete?
  {
    hide Sound, ReadFrame;
    assert chunks != [] by { assert s.delivered + [] + [] == s.delivered; }
    FrameLength(c, key, s.recvNonce, chunks[0]);
    ReadWriteFrame(c.seal(key, s.recvNonce, chunks[0]), Frames(c, key, s.recvNonce + 1, chunks[1..]));
    assert s.wire == s.wire + s.outbox;
  }

  lemma NonceLeft(c: Cipher, key: Key, s: State, chunks: seq<seq<byte>>)
    requires InFlight(c, key, s, chunks) && chunks != []
    ensures s.recvNonce <= MAX_NONCE && 1 <= |chunks[0]|
  {}

  // ---- the methods are runs ----

  /** A whole `Write` call is a run: seal a chunk, hand it over, repeat. */
  function WriteEvents(p: seq<byte>, nonce: nat, c: Cipher, key: Key): seq<Event>
    decreases |p|
  {
    if p == [] then []
    else if nonce > MAX_NONCE || WriteFrame(c.seal(key, nonce, Chunk(p))).Err? then [Seal]
    else [Seal, Transmit(|WriteFrame(c.seal(key, nonce, Chunk(p))).value|)] + WriteEvents(p[|Chunk(p)|..], nonce + 1, c, key)
  }

  lemma {:induction false} WriteIsRun(c: Cipher, key: Key, s: State)
    requires s.outbox == [] && s.writeError == None
    ensures Run(c, key, s, WriteEvents(s.todo, s.sendNonce, c, key)) == Some(AfterWrite(s, WriteAll(c, key, s.sendNonce, s.todo, Reliable)))
    decreases |s.todo|
  {
    hide ReadOnce, Run, Step, WriteFrame;
    if s.todo == [] {
      RunNone(c, key, s);
      assert s.wire + [] == s.wire && s.accepted + [] == s.accepted;
    } else if Stuck(c, key, s) {
      StuckRun(c, key, s);
    } else {
      var chunk := Chunk(s.todo);
      var frame := WriteFrame(c.seal(key, s.sendNonce, chunk)).value;
      var s2 := AfterFirst(s, chunk, frame);
      ChunkRun(c, key, s, WriteEvents(s2.todo, s2.sendNonce, c, key));
      WriteIsRun(c, key, s2);
      WriteTotal(c, key, s2.sendNonce, s2.todo, Reliable);
      AfterChunk(s, s2, frame, chunk, WriteAll(c, key, s2.sendNonce, s2.todo, Reliable));
    }
  }

  /** The next chunk cannot be sealed or framed. */
  predicate Stuck(c: Cipher, key: Key, s: State) {
    s.sendNonce > MAX_NONCE || WriteFrame(c.seal(key, s.sendNonce, Chunk(s.todo))).Err?
  }

  lemma StuckRun(c: Cipher, key: Key, s: State)
    requires s.outbox == [] && s.writeError == None && s.todo != [] && Stuck(c, key, s)
    ensures Run(c, key, s, [Seal]) == Some(AfterWrite(s, WriteAll(c, key, s.sendNonce, s.todo, Reliable)))
  {
    hide Run;
    RunFirst(c, key, s, Seal, []);
    assert [Seal] + [] == [Seal];
    RunNone(c, key, Step(c, key, s, Seal).value);
    assert s.wire + [] == s.wire && s.accepted + s.todo[..0] == s.accepted;
  }

  function AfterFirst(s: State, chunk: seq<byte>, frame: seq<byte>): State
    requires |chunk| <= |s.todo|
  {
    s.(accepted := s.accepted + chunk, todo := s.todo[|chunk|..], sendNonce := s.sendNonce + 1, wire := s.wire + frame)
  }

  /** The first chunk: sealed, then handed over whole. */
  lemma ChunkRun(c: Cipher, key: Key, s: State, more: seq<Event>)
    requires s.outbox == [] && s.writeError == None && s.todo != [] && !Stuck(c, key, s)
    ensures var frame := WriteFrame(c.seal(key, s.sendNonce, Chunk(s.todo))).value;
            Run(c, key, s, [Seal, Transmit(|frame|)] + more) == Run(c, key, AfterFirst(s, Chunk(s.todo), frame), more)
  {
    hide Run;
    var frame := WriteFrame(c.seal(key, s.sendNonce, Chunk(s.todo))).value;
    assert [Seal, Transmit(|frame|)] + more == [Seal] + ([Transmit(|frame|)] + more);
    RunFirst(c, key, s, Seal, [Transmit(|frame|)] + more);
    var s1 := Step(c, key, s, Seal).value;
    assert s1.outbox[..|frame|] == frame && s1.outbox[|frame|..] == [];
    RunFirst(c, key, s1, Transmit(|frame|), more);
  }

  /** The state a completed `Write` leaves behind. */
  function AfterWrite(s: State, w: Written): State {
    s.(accepted := s.accepted + s.todo[..Min(w.total, |s.todo|)], todo := [], sendNonce := w.nonce,
       writeError := w.error, wire := s.wire + w.bytes)
  }

  lemma AfterChunk(s: State, s2: State, frame: seq<byte>, chunk: seq<byte>, w: Written)
    requires chunk <= s.todo && w.total <= |s.todo| - |chunk|
    requires s2 == s.(accepted := s.accepted + chunk, todo := s.todo[|chunk|..], sendNonce := s.sendNonce + 1, wire := s.wire + frame)
    ensures AfterWrite(s2, w) == AfterWrite(s, Written(frame + w.bytes, w.nonce, |chunk| + w.total, w.error))
  {
    var p, rest := s.todo, s2.todo;
    assert chunk + rest[..w.total] == p[..|chunk| + w.total];
    assert s.wire + frame + w.bytes == s.wire + (frame + w.bytes);
    assert s.accepted + chunk + rest[..w.total] == s.accepted + (chunk + rest[..w.total]);
  }

  lemma RunNone(c: Cipher, key: Key, s: State)
    ensures Run(c, key, s, []) == Some(s)
  {}

  lemma RunFirst(c: Cipher, key: Key, s: State, e: Event, rest: seq<Event>)
    ensures Run(c, key, s, [e] + rest)
         == match Step(c, key, s, e) case None => None case Some(s') => Run(c, key, s', rest)
  {
    hide Step;
    assert ([e] + rest)[1..] == rest;
  }

  /** `Write` accepts a prefix, and all of it unless it reports an error. */
  lemma {:induction false} WriteTotal(c: Cipher, key: Key, nonce: nat, p: seq<byte>, raw: Raw)
    ensures var w := WriteAll(c, key, nonce, p, raw);
            w.total <= |p| && (w.error == None <==> w.total == |p|)
    decreases |p|
  {
    if p != [] && nonce <= MAX_NONCE && WriteFrame(c.seal(key, nonce, Chunk(p))).Ok? && raw(nonce).None? {
      WriteTotal(c, key, nonce + 1, p[|Chunk(p)|..], raw);
    }
  }

  /** What is assumed of a cipher can be met. */
  lemma SoundCipherExists()
    ensures exists c :: Sound(c)
  {
    var c := Cipher((k: Key, n: nat, text: seq<byte>) => text + seq(TAG, i => 0),
                    (k: Key, n: nat, sealed: seq<byte>) => if |sealed| < TAG then None else Some(sealed[..|sealed| - TAG]));
    assert Sound(c);
  }
}
