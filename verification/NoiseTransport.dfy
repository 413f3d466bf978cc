/** The record layer of the Noise transport (pkg/noise/conn.go): chunked writes, length-prefixed
frames and reassembling reads.

The cipher is a pair of functions of (key, nonce, text). All that is assumed of it is `Sound`: it
adds a 16-byte tag and opens what it sealed. Wire lengths and nonce limits follow sections 3 and
5.1 of the Noise Protocol Framework. */
module NoiseTransport {
  import opened Wrappers
  import opened Bits

  const TAG := 16
  const MAX_MESSAGE := 65535
  const MAX_PLAINTEXT := MAX_MESSAGE - 16 - 16
  /** 2^64 - 1 is reserved: the last nonce a cipher state uses is 2^64 - 2. */
  const MAX_NONCE := 0xffff_ffff_ffff_fffe

  type Key = seq<byte>

  datatype Cipher = Cipher(seal: (Key, nat, seq<byte>) -> seq<byte>, open: (Key, nat, seq<byte>) -> Option<seq<byte>>)

  ghost predicate Sound(c: Cipher) {
    forall key, nonce, text ::
      && |c.seal(key, nonce, text)| == |text| + TAG
      && c.open(key, nonce, c.seal(key, nonce, text)) == Some(text)
  }

  datatype Error = FrameTooLarge | NonceExhausted | Eof | UnexpectedEof | ZeroLengthFrame | DecryptFailed | ZeroLengthPlaintext | RawFailed

  // ---- frames ----

  function Header(n: nat): seq<byte>
    requires n <= MAX_MESSAGE
  {
    [n / 256, n % 256]
  }

  function Length(hi: byte, lo: byte): nat {
    256 * (hi as nat) + lo as nat
  }

  function WriteFrame(payload: seq<byte>): (r: Result<seq<byte>, Error>)
    ensures r.Err? <==> |payload| > 65535
  {
    if |payload| > MAX_MESSAGE then Err(FrameTooLarge) else Ok(Header(|payload|) + payload)
  }

  /** What reading one frame off a byte stream gives; `rest` is what stays on the stream. */
  datatype FrameRead = Frame(payload: seq<byte>, rest: seq<byte>) | Incomplete(error: Error) | Empty(rest: seq<byte>)

  /** `io.ReadFull` on a stream that holds nothing more than `stream`. */
  function ShortRead(stream: seq<byte>): Error {
    if stream == [] then Eof else UnexpectedEof
  }

  function ReadFrame(stream: seq<byte>): FrameRead {
    if |stream| < 2 then Incomplete(ShortRead(stream))
    else
      var n := Length(stream[0], stream[1]);
      if n == 0 then Empty(stream[2..])
      else if |stream| < 2 + n then Incomplete(ShortRead(stream[2..]))
      else Frame(stream[2..2 + n], stream[2 + n..])
  }

  lemma ReadWriteFrame(payload: seq<byte>, rest: seq<byte>)
    requires 1 <= |payload| <= MAX_MESSAGE
    ensures WriteFrame(payload).Ok?
    ensures ReadFrame(WriteFrame(payload).value + rest) == Frame(payload, rest)
  {
    var stream := WriteFrame(payload).value + rest;
    var n := Length(stream[0], stream[1]);
    assert n == |payload|;
    assert stream[2..2 + |payload|] == payload;
    assert stream[2 + |payload|..] == rest;
  }

  /** A proper prefix of a frame is never taken for a frame. But the end of the stream right after the
      length looks like its end between two frames. */
  lemma PartialFrame(payload: seq<byte>, k: nat)
    requires 1 <= |payload| <= MAX_MESSAGE && k < |payload| + 2
    ensures ReadFrame(WriteFrame(payload).value[..k]) == Incomplete(if k == 0 || k == 2 then Eof else UnexpectedEof)
  {
    var stream := WriteFrame(payload).value[..k];
    if k >= 2 {
      var n := Length(stream[0], stream[1]);
      assert n == |payload|;
    }
  }

  lemma EmptyFrame(rest: seq<byte>)
    ensures ReadFrame([0, 0] + rest) == Empty(rest)
  {
    assert ([0, 0] + rest)[2..] == rest;
  }

  // ---- writing ----

  function Chunk(p: seq<byte>): seq<byte> {
    if |p| > MAX_PLAINTEXT then p[..MAX_PLAINTEXT] else p
  }

  lemma ChunkIs(p: seq<byte>, chunk: seq<byte>)
    requires p != [] && chunk == if |p| > MAX_PLAINTEXT then p[..MAX_PLAINTEXT] else p
    ensures chunk == Chunk(p) && 0 < |chunk| <= |p|
  {}

  lemma Regrouped(a: seq<byte>, b: seq<byte>, c: seq<byte>)
    ensures (a + b) + c == a + (b + c)
  {}

  datatype Written = Written(bytes: seq<byte>, nonce: nat, total: nat, error: Option<Error>)

  /** What the raw connection does with the frame sealed under each nonce: takes it all, or fails after
      some of its bytes. */
  type Raw = nat -> Option<nat>

  const Reliable: Raw := (nonce: nat) => None

  /** One call of `Write`, as a function of the nonce and the plaintext. */
  function WriteAll(c: Cipher, key: Key, nonce: nat, p: seq<byte>, raw: Raw): Written
    decreases |p|
  {
    if p == [] then Written([], nonce, 0, None)
    else if nonce > MAX_NONCE then Written([], nonce, 0, Some(NonceExhausted))
    else
      var chunk := Chunk(p);
      match WriteFrame(c.seal(key, nonce, chunk))
      case Err(e) => Written([], nonce + 1, 0, Some(e))
      case Ok(frame) =>
        if raw(nonce).Some? then Written(frame[..Min(raw(nonce).value, |frame|)], nonce + 1, 0, Some(RawFailed))
        else
          var w := WriteAll(c, key, nonce + 1, p[|chunk|..], raw);
          Written(frame + w.bytes, w.nonce, |chunk| + w.total, w.error)
  }

  /** `w` done after `sent` bytes that carried `total` bytes of plaintext. */
  function Continue(sent: seq<byte>, total: nat, w: Written): Written {
    Written(sent + w.bytes, w.nonce, total + w.total, w.error)
  }

  lemma WriteAllUnfolded(c: Cipher, key: Key, nonce: nat, p: seq<byte>, raw: Raw, sent: seq<byte>, total: nat)
    ensures var w := Continue(sent, total, WriteAll(c, key, nonce, p, raw));
            var frame := WriteFrame(c.seal(key, nonce, Chunk(p)));
            w == if p == [] then Written(sent, nonce, total, None)
                 else if nonce > MAX_NONCE then Written(sent, nonce, total, Some(NonceExhausted))
                 else if frame.Err? then Written(sent, nonce + 1, total, Some(frame.error))
                 else if raw(nonce).Some?
                 then Written(sent + frame.value[..Min(raw(nonce).value, |frame.value|)], nonce + 1, total, Some(RawFailed))
                 else Continue(sent + frame.value, total + |Chunk(p)|, WriteAll(c, key, nonce + 1, p[|Chunk(p)|..], raw))
  {
    hide WriteFrame;
    assert sent + [] == sent;
    if p != [] && nonce <= MAX_NONCE && WriteFrame(c.seal(key, nonce, Chunk(p))).Ok? {
      var frame := WriteFrame(c.seal(key, nonce, Chunk(p))).value;
      var w := WriteAll(c, key, nonce + 1, p[|Chunk(p)|..], raw);
      assert sent + (frame + w.bytes) == sent + frame + w.bytes;
    }
  }

  /** One round of the loop: at most 65503 bytes, sealed under the next nonce, behind the two bytes of their
      sealed length. */
  lemma WriteRound(c: Cipher, key: Key, nonce: nat, p: seq<byte>, raw: Raw)
    requires Sound(c) && p != []
    ensures var n := Min(65503, |p|);
            var frame := [(n + 16) / 256, (n + 16) % 256] + c.seal(key, nonce, p[..n]);
            WriteAll(c, key, nonce, p, raw) ==
            if nonce > 0xffff_ffff_ffff_fffe then Written([], nonce, 0, Some(NonceExhausted))
            else if raw(nonce).Some? then Written(frame[..Min(raw(nonce).value, |frame|)], nonce + 1, 0, Some(RawFailed))
            else Continue(frame, n, WriteAll(c, key, nonce + 1, p[n..], raw))
  {
    hide WriteFrame, WriteAll;
    var n := Min(65503, |p|);
    assert Chunk(p) == p[..n];
    WriteAllUnfolded(c, key, nonce, p, raw, [], 0);
    SealedFrame(c, key, nonce, Chunk(p));
    var w := WriteAll(c, key, nonce, p, raw);
    assert [] + w.bytes == w.bytes;
  }

  lemma SealedFrame(c: Cipher, key: Key, nonce: nat, chunk: seq<byte>)
    requires Sound(c) && |chunk| <= MAX_PLAINTEXT
    ensures WriteFrame(c.seal(key, nonce, chunk)) == Ok([(|chunk| + 16) / 256, (|chunk| + 16) % 256] + c.seal(key, nonce, chunk))
  {}

  // ---- reading ----

  datatype Received = Received(result: Result<seq<byte>, Error>, readBuf: seq<byte>, nonce: nat, stream: seq<byte>)

  /** One call of `Read` with an n-byte buffer, on the bytes that ever reach the stream; with `cut`, the
      raw connection fails (a deadline, say) once that many of them have been read. */
  function ReadOnce(c: Cipher, key: Key, readBuf: seq<byte>, nonce: nat, stream: seq<byte>, n: nat, cut: Option<nat>): Received {
    if readBuf != [] then
      var k := Min(n, |readBuf|);
      Received(Ok(readBuf[..k]), readBuf[k..], nonce, stream)
    else
      var there := Available(stream, cut);
      var later := stream[|there|..];
      match ReadFrame(there)
      case Incomplete(e) => Received(Err(if cut.Some? then RawFailed else e), [], nonce, later)
      case Empty(rest) => Received(Err(ZeroLengthFrame), [], nonce, rest + later)
      case Frame(payload, rest) =>
        if nonce > MAX_NONCE then Received(Err(NonceExhausted), [], nonce, rest + later)
        else
          match c.open(key, nonce, payload)
          case None => Received(Err(DecryptFailed), [], nonce, rest + later)
          case Some(text) =>
            if text == [] then Received(Err(ZeroLengthPlaintext), [], nonce + 1, rest + later)
            else
              var k := Min(n, |text|);
              Received(Ok(text[..k]), text[k..], nonce + 1, rest + later)
  }

  function Available(stream: seq<byte>, cut: Option<nat>): (there: seq<byte>)
    ensures there <= stream
  {
    if cut.Some? then stream[..Min(cut.value, |stream|)] else stream
  }

  /** A read cut off inside a frame can be taken up again exactly when it had not read a byte yet: else
      what it has read is gone and the next call starts in mid-frame. */
  lemma CutRead(c: Cipher, key: Key, nonce: nat, payload: seq<byte>, more: seq<byte>, n: nat, k: nat)
    requires 1 <= |payload| <= MAX_MESSAGE && k < |payload| + 2
    ensures WriteFrame(payload).Ok?
    ensures var stream := WriteFrame(payload).value + more;
            var r := ReadOnce(c, key, [], nonce, stream, n, Some(k));
            r.result == Err(RawFailed) && r.nonce == nonce && (r.stream == stream <==> k == 0)
  {
    var frame := WriteFrame(payload).value;
    var stream := frame + more;
    assert stream[..k] == frame[..k];
    PartialFrame(payload, k);
    assert |stream[k..]| == |stream| - k;
  }

  /** A read that finds nothing spilled takes one frame off the stream: what each one gives. */
  lemma ReadRound(c: Cipher, key: Key, nonce: nat, payload: seq<byte>, more: seq<byte>, n: nat)
    requires 1 <= |payload| <= MAX_MESSAGE
    ensures var stream := [|payload| / 256, |payload| % 256] + payload + more;
            ReadOnce(c, key, [], nonce, stream, n, None) ==
            if nonce > 0xffff_ffff_ffff_fffe then Received(Err(NonceExhausted), [], nonce, more)
            else match c.open(key, nonce, payload)
                 case None => Received(Err(DecryptFailed), [], nonce, more)
                 case Some(text) =>
                   if text == [] then Received(Err(ZeroLengthPlaintext), [], nonce + 1, more)
                   else Received(Ok(text[..Min(n, |text|)]), text[Min(n, |text|)..], nonce + 1, more)
  {
    hide ReadFrame;
    var stream := [|payload| / 256, |payload| % 256] + payload + more;
    assert stream == WriteFrame(payload).value + more;
    ReadWriteFrame(payload, more);
    assert stream[|stream|..] == [] && more + [] == more;
  }

  /** And what it gives when there is no whole frame to come. */
  lemma ReadNothing(c: Cipher, key: Key, nonce: nat, payload: seq<byte>, k: nat, n: nat)
    requires 1 <= |payload| <= MAX_MESSAGE && k < |payload| + 2
    ensures WriteFrame(payload).Ok?
    ensures ReadOnce(c, key, [], nonce, WriteFrame(payload).value[..k], n, None)
         == Received(Err(if k == 0 || k == 2 then Eof else UnexpectedEof), [], nonce, [])
    ensures forall rest :: ReadOnce(c, key, [], nonce, [0, 0] + rest, n, None) == Received(Err(ZeroLengthFrame), [], nonce, rest)
  {
    hide ReadFrame;
    PartialFrame(payload, k);
    forall rest: seq<byte>
      ensures ReadOnce(c, key, [], nonce, [0, 0] + rest, n, None) == Received(Err(ZeroLengthFrame), [], nonce, rest)
    {
      EmptyFrame(rest);
      assert rest + [] == rest;
    }
  }

  // ---- the connection object ----

  class Link {
    var bytes: seq<byte>
    constructor ()
      ensures bytes == []
    {
      bytes := [];
    }
  }

  class Conn {
    const cipher: Cipher
    const sendKey: Key
    const recvKey: Key
    const outgoing: Link
    const incoming: Link
    var sendNonce: nat
    var recvNonce: nat
    var readBuf: seq<byte>

    constructor (cipher: Cipher, sendKey: Key, recvKey: Key, outgoing: Link, incoming: Link)
      ensures this.cipher == cipher && this.sendKey == sendKey && this.recvKey == recvKey
      ensures this.outgoing == outgoing && this.incoming == incoming
      ensures sendNonce == 0 && recvNonce == 0 && readBuf == []
    {
      this.cipher, this.sendKey, this.recvKey := cipher, sendKey, recvKey;
      this.outgoing, this.incoming := outgoing, incoming;
      sendNonce, recvNonce, readBuf := 0, 0, [];
    }

    method Write(p: seq<byte>, raw: Raw) returns (total: nat, error: Option<Error>)
      modifies this`sendNonce, outgoing
      ensures var w := WriteAll(cipher, sendKey, old(sendNonce), p, raw);
              && total == w.total && error == w.error && sendNonce == w.nonce
              && outgoing.bytes == old(outgoing.bytes) + w.bytes
    {
      hide WriteFrame, WriteAll, Chunk;
      ghost var whole := WriteAll(cipher, sendKey, sendNonce, p, raw);
      ghost var sent := [];
      var left := p;
      total := 0;
      while |left| > 0
        invariant outgoing.bytes == old(outgoing.bytes) + sent
        invariant whole == Continue(sent, total, WriteAll(cipher, sendKey, sendNonce, left, raw))
      {
        WriteAllUnfolded(cipher, sendKey, sendNonce, left, raw, sent, total);
        var chunk := left;
        if |chunk| > MAX_PLAINTEXT {
          chunk := chunk[..MAX_PLAINTEXT];
        }
        ChunkIs(left, chunk);
        if sendNonce > MAX_NONCE {
          return total, Some(NonceExhausted);
        }
        var ct := cipher.seal(sendKey, sendNonce, chunk);
        var accepted := raw(sendNonce);
        sendNonce := sendNonce + 1;
        var frame := WriteFrame(ct);
        if frame.Err? {
          return total, Some(frame.error);
        }
        var taken := if accepted.Some? then frame.value[..Min(accepted.value, |frame.value|)] else frame.value;
        Regrouped(old(outgoing.bytes), sent, taken);
        outgoing.bytes := outgoing.bytes + taken;
        if accepted.Some? {
          return total, Some(RawFailed);
        }
        left := left[|chunk|..];
        total := total + |chunk|;
        sent := sent + frame.value;
      }
      WriteAllUnfolded(cipher, sendKey, sendNonce, left, raw, sent, total);
      error := None;
    }

    method Read(n: nat, cut: Option<nat>) returns (result: Result<seq<byte>, Error>)
      modifies this`recvNonce, this`readBuf, incoming
      ensures Received(result, readBuf, recvNonce, incoming.bytes)
           == ReadOnce(cipher, recvKey, old(readBuf), old(recvNonce), old(incoming.bytes), n, cut)
    {
      if |readBuf| > 0 {
        var k := Min(n, |readBuf|);
        result := Ok(readBuf[..k]);
        readBuf := readBuf[k..];
        return;
      }
      var there := Available(incoming.bytes, cut);
      var later := incoming.bytes[|there|..];
      match ReadFrame(there)
      case Incomplete(e) =>
        incoming.bytes := later;
        result := Err(if cut.Some? then RawFailed else e);
      case Empty(rest) =>
        incoming.bytes := rest + later;
        result := Err(ZeroLengthFrame);
      case Frame(frame, rest) =>
        incoming.bytes := rest + later;
        if recvNonce > MAX_NONCE {
          return Err(NonceExhausted);
        }
        var plaintext := cipher.open(recvKey, recvNonce, frame);
        if plaintext.None? {
          return Err(DecryptFailed);
        }
        recvNonce := recvNonce + 1;
        var text := plaintext.value;
        if |text| == 0 {
          return Err(ZeroLengthPlaintext);
        }
        var k := Min(n, |text|);
        result := Ok(text[..k]);
        if k < |text| {
          readBuf := text[k..];
        }
    }
  }
}
