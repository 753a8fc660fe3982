// The length-prefixed framing of both sides of the wire.
module Framed {
  import opened Texts

  const MAX_FRAME_BYTES: nat := 64 * 1024 * 1024

  /** The payload codec: serialization may fail, and so may parsing. */
  datatype Codec<!T> = Codec(serialize: T -> Option<Text>, deserialize: Text -> Option<T>)

  ghost predicate RoundTrips<T(!new)>(c: Codec<T>) {
    forall m: T :: c.serialize(m).Some? ==> c.deserialize(c.serialize(m).value) == Some(m)
  }

  datatype FrameError = EncodeFailed | TooLong(n: nat) | DecodeFailed | UnexpectedEof

  /** `encode` */
  function Encode<T>(c: Codec<T>, m: T): Result<Text, FrameError> {
    match c.serialize(m)
    case None => Err(EncodeFailed)
    case Some(p) => if |p| > MAX_FRAME_BYTES then Err(TooLong(|p|)) else Ok(Le32(|p|) + p)
  }

  /** `try_decode`: `Ok(None)` asks for more bytes. */
  function TryDecode<T>(c: Codec<T>, buf: Text): (r: Result<Option<(T, nat)>, FrameError>)
    ensures r.Ok? && r.value.Some? ==> 4 <= r.value.value.1 <= |buf|
  {
    if |buf| < 4 then Ok(None)
    else
      var len := FromLe32(buf[..4]);
      if len > MAX_FRAME_BYTES then Err(TooLong(len))
      else if |buf| < 4 + len then Ok(None)
      else
        match c.deserialize(buf[4..4 + len])
        case None => Err(DecodeFailed)
        case Some(v) => Ok(Some((v, 4 + len)))
  }

  method EncodeFrame<T>(c: Codec<T>, m: T) returns (r: Result<Text, FrameError>)
    ensures r == Encode(c, m)
  {
    var payload := c.serialize(m);
    if payload.None? {
      return Err(EncodeFailed);
    }
    if |payload.value| > MAX_FRAME_BYTES {
      return Err(TooLong(|payload.value|));
    }
    var out := Le32(|payload.value|);
    out := out + payload.value;
    return Ok(out);
  }

  // ---- A receiver that decodes after every read ----

  /** The messages decoded so far, the bytes not yet decoded, and the error that ended decoding. */
  datatype Received<T> = Received(got: seq<T>, rest: Text, error: Option<FrameError>)

  /** Decodes as many frames as the buffer holds. */
  function Drain<T>(c: Codec<T>, buf: Text): Received<T>
    decreases |buf|
  {
    match TryDecode(c, buf)
    case Err(e) => Received([], buf, Some(e))
    case Ok(None) => Received([], buf, None)
    case Ok(Some((v, n))) =>
      var r := Drain(c, buf[n..]);
      r.(got := [v] + r.got)
  }

  /** One more read. After an error nothing more is decoded. */
  function Feed<T>(c: Codec<T>, r: Received<T>, chunk: Text): Received<T> {
    if r.error.Some? then r.(rest := r.rest + chunk)
    else
      var d := Drain(c, r.rest + chunk);
      d.(got := r.got + d.got)
  }

  function FeedAll<T>(c: Codec<T>, r: Received<T>, chunks: seq<Text>): Received<T>
    decreases |chunks|
  {
    if chunks == [] then r else FeedAll(c, Feed(c, r, chunks[0]), chunks[1..])
  }

  lemma DecodeStable<T>(c: Codec<T>, buf: Text, more: Text)
    requires TryDecode(c, buf) != Ok(None)
    ensures TryDecode(c, buf + more) == TryDecode(c, buf)
  {
    assert (buf + more)[..4] == buf[..4];
    var len := FromLe32(buf[..4]);
    if len <= MAX_FRAME_BYTES {
      assert (buf + more)[4..4 + len] == buf[4..4 + len];
    }
  }

  /** Draining again after more bytes have come is draining all of them at once. */
  lemma {:induction false} DrainAgain<T>(c: Codec<T>, buf: Text, more: Text)
    ensures Drain(c, buf + more) == Feed(c, Drain(c, buf), more)
    decreases |buf|
  {
    hide TryDecode;
    var r := TryDecode(c, buf);
    if r != Ok(None) {
      DecodeStable(c, buf, more);
      if r.Ok? {
        var n := r.value.value.1;
        assert (buf + more)[n..] == buf[n..] + more;
        DrainAgain(c, buf[n..], more);
        hide Drain;
        FeedPrepend(c, [r.value.value.0], Drain(c, buf[n..]), more);
      }
    } else {
      assert [] + Drain(c, buf + more).got == Drain(c, buf + more).got;
    }
  }

  lemma FeedPrepend<T>(c: Codec<T>, vs: seq<T>, r: Received<T>, more: Text)
    ensures Feed(c, r.(got := vs + r.got), more) == Feed(c, r, more).(got := vs + Feed(c, r, more).got)
  {
    hide Drain;
    var d := Drain(c, r.rest + more);
    assert vs + r.got + d.got == vs + (r.got + d.got);
  }

  lemma {:induction false} FeedOnward<T>(c: Codec<T>, buf: Text, chunks: seq<Text>)
    ensures FeedAll(c, Drain(c, buf), chunks) == Drain(c, buf + Concat(chunks))
    decreases |chunks|
  {
    hide Drain;
    if chunks == [] {
      assert buf + Concat(chunks) == buf;
    } else {
      DrainAgain(c, buf, chunks[0]);
      FeedOnward(c, buf + chunks[0], chunks[1..]);
      ConcatAssociative(buf, chunks[0], Concat(chunks[1..]));
    }
  }

  /** Whatever the bytes are and however they are cut into reads, the outcome is the same. */
  lemma ChunksDoNotMatter<T>(c: Codec<T>, chunks: seq<Text>)
    ensures FeedAll(c, Received([], "", None), chunks) == Drain(c, Concat(chunks))
  {
    FeedOnward(c, "", chunks);
    assert "" + Concat(chunks) == Concat(chunks);
  }

  // ---- Streams of frames ----

  /** A message that serializes to at most 64 MiB. */
  predicate Fits<T>(c: Codec<T>, m: T) {
    c.serialize(m).Some? && |c.serialize(m).value| <= 64 * 1024 * 1024
  }

  /** Its frame: the length in four bytes, lowest first, and the payload. */
  function FrameOf<T>(c: Codec<T>, m: T): Text
    requires Fits(c, m)
  {
    var p := c.serialize(m).value;
    [(|p| % 256) as char, (|p| / 256 % 256) as char, (|p| / 65536 % 256) as char, (|p| / 16777216) as char] + p
  }

  /** Encoding gives the frame of every message that fits, and tells why for every other. */
  lemma EncodeIs<T>(c: Codec<T>, m: T)
    ensures match c.serialize(m)
            case None => Encode(c, m) == Err(EncodeFailed)
            case Some(p) =>
              if |p| <= 64 * 1024 * 1024 then Fits(c, m) && Encode(c, m) == Ok(FrameOf(c, m))
              else Encode(c, m) == Err(TooLong(|p|))
  {}

  predicate AllFit<T>(c: Codec<T>, ms: seq<T>) {
    forall i :: 0 <= i < |ms| ==> Fits(c, ms[i])
  }

  function Frames<T>(c: Codec<T>, ms: seq<T>): Text
    requires AllFit(c, ms)
  {
    if ms == [] then "" else FrameOf(c, ms[0]) + Frames(c, ms[1..])
  }

  lemma DecodeEncoded<T(!new)>(c: Codec<T>, m: T, rest: Text)
    requires RoundTrips(c) && Fits(c, m)
    ensures TryDecode(c, FrameOf(c, m) + rest) == Ok(Some((m, |FrameOf(c, m)|)))
  {
    var p := c.serialize(m).value;
    var buf := FrameOf(c, m) + rest;
    assert buf[..4] == Le32(|p|) && buf[4..4 + |p|] == p;
    Le32RoundTrip(|p|);
    hide Le32, FromLe32;
  }

  /** The beginning of a frame asks for more. */
  lemma DecodePartial<T(!new)>(c: Codec<T>, m: T, part: Text)
    requires Fits(c, m) && part < FrameOf(c, m)
    ensures TryDecode(c, part) == Ok(None)
  {
    var p := c.serialize(m).value;
    if |part| >= 4 {
      assert part[..4] == Le32(|p|);
      Le32RoundTrip(|p|);
      hide Le32, FromLe32;
    }
  }

  /** A length above 64 MiB is refused at once, and a payload that does not parse when it is there. */
  lemma BadFramesRefused<T>(c: Codec<T>, buf: Text)
    requires |buf| >= 4
    ensures var n := buf[0] as int + 256 * buf[1] as int + 65536 * buf[2] as int + 16777216 * buf[3] as int;
            if n > 64 * 1024 * 1024 then TryDecode(c, buf) == Err(TooLong(n)) && ReadFrame(c, buf) == Err(TooLong(n))
            else if |buf| < 4 + n then TryDecode(c, buf) == Ok(None) && ReadFrame(c, buf) == Err(UnexpectedEof)
            else c.deserialize(buf[4..4 + n]) == None ==>
              TryDecode(c, buf) == Err(DecodeFailed) && ReadFrame(c, buf) == Err(DecodeFailed)
  {}

  /** A strict beginning of the frame of some message. */
  ghost predicate Partial<T(!new)>(c: Codec<T>, part: Text) {
    part == "" || exists m: T :: Fits(c, m) && part < FrameOf(c, m)
  }

  lemma {:induction false} DrainFrames<T(!new)>(c: Codec<T>, ms: seq<T>, part: Text)
    requires RoundTrips(c) && AllFit(c, ms) && Partial(c, part)
    ensures Drain(c, Frames(c, ms) + part) == Received(ms, part, None)
  {
    hide TryDecode, FrameOf, Drain, RoundTrips;
    if ms == [] {
      assert Frames(c, ms) + part == part;
      PartialWaits(c, part);
    } else {
      var f, rest := FrameOf(c, ms[0]), Frames(c, ms[1..]) + part;
      DecodeEncoded(c, ms[0], rest);
      DrainFrames(c, ms[1..], part);
      assert Frames(c, ms) + part == f + rest;
      DrainOne(c, ms[0], f, rest);
      assert ms == [ms[0]] + ms[1..];
    }
  }

  lemma PartialWaits<T(!new)>(c: Codec<T>, part: Text)
    requires Partial(c, part)
    ensures Drain(c, part) == Received([], part, None)
  {
    if part != "" {
      var m :| Fits(c, m) && part < FrameOf(c, m);
      DecodePartial(c, m, part);
    }
    hide FrameOf;
  }

  lemma DrainOne<T>(c: Codec<T>, m: T, f: Text, rest: Text)
    requires TryDecode(c, f + rest) == Ok(Some((m, |f|)))
    ensures Drain(c, f + rest) == Drain(c, rest).(got := [m] + Drain(c, rest).got)
  {
    hide TryDecode;
    assert (f + rest)[|f|..] == rest;
  }

  /**
   * For any messages and any cut of their frames into reads, with the beginning of one more frame at
   * the end: exactly those messages are decoded, and exactly that beginning is left over.
   */
  lemma DecodedExactly<T(!new)>(c: Codec<T>, ms: seq<T>, part: Text, chunks: seq<Text>)
    requires RoundTrips(c) && AllFit(c, ms) && Partial(c, part) && Concat(chunks) == Frames(c, ms) + part
    ensures FeedAll(c, Received([], "", None), chunks) == Received(ms, part, None)
  {
    hide AllFit, Partial, RoundTrips;
    ChunksDoNotMatter(c, chunks);
    DrainFrames(c, ms, part);
  }

  // ---- The writer ----

  lemma {:induction false} FramesAppend<T>(c: Codec<T>, ms: seq<T>, m: T)
    requires AllFit(c, ms) && Fits(c, m)
    ensures AllFit(c, ms + [m]) && Frames(c, ms + [m]) == Frames(c, ms) + FrameOf(c, m)
  {
    hide FrameOf;
    if ms == [] {
      assert ms + [m] == [m] && [m][1..] == [];
      assert Frames(c, [m]) == FrameOf(c, m) + Frames(c, []) == FrameOf(c, m);
    } else {
      FramesAppend(c, ms[1..], m);
      assert (ms + [m])[1..] == ms[1..] + [m];
      ConcatAssociative(FrameOf(c, ms[0]), Frames(c, ms[1..]), FrameOf(c, m));
    }
  }

  /** The writing end of a socket. */
  class Writer {
    var written: Text

    constructor ()
      ensures written == ""
    {
      written := "";
    }
  }

  /** `write_frame`: a stream of frames stays one; exactly a message that does not fit is refused. */
  method WriteFrame<T(!new)>(c: Codec<T>, m: T, w: Writer) returns (r: Result<(), FrameError>)
    modifies w
    ensures r == Err(EncodeFailed) <==> c.serialize(m) == None
    ensures forall n :: r == Err(TooLong(n)) <==>
              c.serialize(m).Some? && n == |c.serialize(m).value| && n > 64 * 1024 * 1024
    ensures r == Ok(()) <==> Fits(c, m)
    ensures w.written == if Fits(c, m) then old(w.written) + FrameOf(c, m) else old(w.written)
    ensures Fits(c, m) ==> forall ms :: AllFit(c, ms) && old(w.written) == Frames(c, ms) ==>
              AllFit(c, ms + [m]) && w.written == Frames(c, ms + [m])
  {
    var frame := EncodeFrame(c, m);
    EncodeIs(c, m);
    if frame.Err? {
      return Err(frame.error);
    }
    w.written := w.written + frame.value;
    forall ms | AllFit(c, ms) && old(w.written) == Frames(c, ms)
      ensures AllFit(c, ms + [m]) && w.written == Frames(c, ms + [m])
    {
      FramesAppend(c, ms, m);
    }
    return Ok(());
  }

  // ---- The blocking reader ----

  /** One frame off the front of a stream that ends where `bytes` ends. */
  function ReadFrame<T>(c: Codec<T>, bytes: Text): (r: Result<Option<(T, nat)>, FrameError>)
    ensures r.Ok? && r.value.Some? ==> 4 <= r.value.value.1 <= |bytes|
  {
    if bytes == "" then Ok(None)
    else if |bytes| < 4 then Err(UnexpectedEof)
    else
      var len := FromLe32(bytes[..4]);
      if len > MAX_FRAME_BYTES then Err(TooLong(len))
      else if |bytes| < 4 + len then Err(UnexpectedEof)
      else
        match c.deserialize(bytes[4..4 + len])
        case None => Err(DecodeFailed)
        case Some(v) => Ok(Some((v, 4 + len)))
  }

  /** The reading end of a socket: the bytes still to come before end of file. */
  class Reader {
    var pending: Text

    constructor (bytes: Text)
      ensures pending == bytes
    {
      pending := bytes;
    }

    /** `read` into one byte of `buf`: 0 at end of file. */
    method ReadOne(buf: array<char>, at: nat) returns (n: nat)
      requires at < buf.Length
      modifies this, buf
      ensures n == if old(pending) == "" then 0 else 1
      ensures n == 0 ==> pending == old(pending) && buf[..] == old(buf[..])
      ensures n == 1 ==> pending == old(pending)[1..] && buf[..] == old(buf[..])[at := old(pending)[0]]
    {
      if pending == "" {
        return 0;
      }
      buf[at] := pending[0];
      pending := pending[1..];
      return 1;
    }

    /** `read_exact` into `buf` from index `from` on. */
    method ReadExact(buf: array<char>, from: nat) returns (ok: bool)
      requires from <= buf.Length
      modifies this, buf
      ensures ok <==> |old(pending)| >= buf.Length - from
      ensures ok ==> pending == old(pending)[buf.Length - from..]
      ensures ok ==> buf[..] == old(buf[..from]) + old(pending)[..buf.Length - from]
    {
      var i := from;
      while i < buf.Length
        invariant from <= i <= buf.Length && i - from <= |old(pending)| && pending == old(pending)[i - from..]
        invariant buf[..i] == old(buf[..from]) + old(pending)[..i - from]
      {
        if pending == "" {
          return false;
        }
        buf[i] := pending[0];
        pending := pending[1..];
        i := i + 1;
      }
      assert buf[..] == buf[..buf.Length];
      return true;
    }
  }

  /** `read_frame` and `read_frame_async`: header, then payload, then decoding. */
  method ReadNext<T>(c: Codec<T>, r: Reader) returns (result: Result<Option<T>, FrameError>)
    modifies r
    ensures match ReadFrame(c, old(r.pending))
            case Err(e) => result == Err(e)
            case Ok(None) => result == Ok(None) && r.pending == ""
            case Ok(Some((v, n))) => result == Ok(Some(v)) && n <= |old(r.pending)| && r.pending == old(r.pending)[n..]
  {
    ghost var bytes := r.pending;
    var header := new char[4](_ => 0 as char);
    var first := r.ReadOne(header, 0);
    if first == 0 {
      return Ok(None);
    }
    var ok := r.ReadExact(header, first);
    if !ok {
      return Err(UnexpectedEof);
    }
    assert header[..] == bytes[..4];
    var len := FromLe32(header[..]);
    if len > MAX_FRAME_BYTES {
      return Err(TooLong(len));
    }
    var payload := new char[len](_ => 0 as char);
    ok := r.ReadExact(payload, 0);
    if !ok {
      return Err(UnexpectedEof);
    }
    assert payload[..] == bytes[4..4 + len];
    match c.deserialize(payload[..]) {
      case None => return Err(DecodeFailed);
      case Some(v) => return Ok(Some(v));
    }
  }

  /** All messages that repeated reads give, and how reading ends: `None` at end of file. */
  function ReadAll<T>(c: Codec<T>, bytes: Text): (seq<T>, Option<FrameError>)
    decreases |bytes|
  {
    match ReadFrame(c, bytes)
    case Err(e) => ([], Some(e))
    case Ok(None) => ([], None)
    case Ok(Some((v, n))) =>
      var (vs, end) := ReadAll(c, bytes[n..]);
      ([v] + vs, end)
  }

  /**
   * On any bytes the blocking reader gives the messages that repeated decoding gives, and it ends
   * cleanly exactly when nothing is left over.
   */
  lemma {:induction false} ReaderAgrees<T>(c: Codec<T>, bytes: Text)
    ensures ReadAll(c, bytes).0 == Drain(c, bytes).got
    ensures ReadAll(c, bytes).1.None? <==> Drain(c, bytes).rest == "" && Drain(c, bytes).error.None?
    decreases |bytes|
  {
    match TryDecode(c, bytes)
    case Err(_) =>
    case Ok(None) =>
    case Ok(Some((v, n))) => ReaderAgrees(c, bytes[n..]);
  }

  /** Frames are read back one by one; the end is clean at a frame boundary and an error inside a frame. */
  lemma {:induction false} ReadFrames<T(!new)>(c: Codec<T>, ms: seq<T>, part: Text)
    requires RoundTrips(c) && AllFit(c, ms) && Partial(c, part)
    ensures ReadAll(c, Frames(c, ms) + part).0 == ms
    ensures ReadAll(c, Frames(c, ms) + part).1.None? <==> part == ""
  {
    hide AllFit, Partial, RoundTrips, Drain, ReadAll;
    DrainFrames(c, ms, part);
    ReaderAgrees(c, Frames(c, ms) + part);
  }
}
