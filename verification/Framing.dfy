/** Length-prefixed frames over a stream socket (codna/local_mojo_daemon.py).

    `dumps` and `loads` stand for the JSON codec on text; `loads` says whether a text is an object,
    another value or no JSON at all. The text travels as UTF-8. */
module Framing {
  import opened Wrappers
  import Utf8

  type byte = Utf8.byte

  datatype Loaded<+V> = Object(value: V) | OtherValue | Malformed

  datatype FrameError =
    | ClosedEarly(expected: nat, remaining: nat)
    | UndecodableText    // no protocol error: the decoder's own exception passes through
    | InvalidJson
    | NonObject
    | TooLong

  const HEADER_BYTES := 4
  const LENGTH_LIMIT := 0x1_0000_0000

  // ----- the wire format -----

  /** Four bytes, most significant first. */
  function Pack(n: nat): (header: seq<byte>)
    requires n < LENGTH_LIMIT
    ensures |header| == HEADER_BYTES
  {
    [(n / 0x100_0000) as byte, (n / 0x1_0000 % 0x100) as byte, (n / 0x100 % 0x100) as byte, (n % 0x100) as byte]
  }

  function Unpack(header: seq<byte>): (n: nat)
    requires |header| == HEADER_BYTES
    ensures n < LENGTH_LIMIT
  {
    ((header[0] as nat * 0x100 + header[1] as nat) * 0x100 + header[2] as nat) * 0x100 + header[3] as nat
  }

  function Frame(data: seq<byte>): (frame: seq<byte>)
    requires |data| < LENGTH_LIMIT
    ensures |frame| == HEADER_BYTES + |data|
  {
    Pack(|data|) + data
  }

  /** Reading `size` bytes off a stream: them and the rest, or the protocol error and nothing left. */
  function ReadExactly(stream: seq<byte>, size: nat): (Result<seq<byte>, FrameError>, seq<byte>) {
    if size <= |stream| then (Success(stream[..size]), stream[size..])
    else (Failure(ClosedEarly(size, size - |stream|)), [])
  }

  function ReadFrame<V>(stream: seq<byte>, loads: string -> Loaded<V>): (Result<V, FrameError>, seq<byte>) {
    var (header, afterHeader) := ReadExactly(stream, HEADER_BYTES);
    match header
    case Failure(e) => (Failure(e), afterHeader)
    case Success(bytes) =>
      var (raw, rest) := ReadExactly(afterHeader, Unpack(bytes));
      match raw
      case Failure(e) => (Failure(e), rest)
      case Success(data) =>
        match Utf8.Decode(data)
        case None => (Failure(UndecodableText), rest)
        case Some(text) =>
          match loads(text)
          case Object(v) => (Success(v), rest)
          case OtherValue => (Failure(NonObject), rest)
          case Malformed => (Failure(InvalidJson), rest)
  }

  // ----- the imperative code -----

  /** One end of a connection: what the peer sent before closing, and what was sent to it. */
  class Socket {
    var incoming: seq<byte>
    var outgoing: seq<byte>

    /** Any non-empty chunk the kernel likes, or nothing once the peer has closed. */
    method Recv(size: nat) returns (chunk: seq<byte>)
      requires size > 0
      modifies this`incoming
      ensures old(incoming) == [] ==> chunk == [] && incoming == []
      ensures old(incoming) != [] ==> 0 < |chunk| <= size && chunk + incoming == old(incoming)
    {
      if incoming == [] {
        return [];
      }
      var k: nat :| 1 <= k <= |incoming| && k <= size;
      chunk, incoming := incoming[..k], incoming[k..];
    }

    method SendAll(data: seq<byte>)
      modifies this`outgoing
      ensures outgoing == old(outgoing) + data
    {
      outgoing := outgoing + data;
    }

    /** However the stream is chunked, the result depends on its bytes only. */
    method ReadExact(size: nat) returns (r: Result<seq<byte>, FrameError>)
      modifies this`incoming
      ensures (r, incoming) == ReadExactly(old(incoming), size)
    {
      var chunks: seq<byte> := [];
      var remaining := size;
      while remaining > 0
        invariant remaining == size - |chunks| && |chunks| <= size
        invariant chunks + incoming == old(incoming)
        decreases remaining
      {
        var chunk := Recv(remaining);
        if chunk == [] {
          return Failure(ClosedEarly(size, remaining));
        }
        chunks := chunks + chunk;
        remaining := remaining - |chunk|;
      }
      assert old(incoming)[..size] == chunks && old(incoming)[size..] == incoming;
      return Success(chunks);
    }

    method WriteFrame<V>(payload: V, dumps: V -> string) returns (r: Result<(), FrameError>)
      modifies this`outgoing
      ensures var data := Utf8.Encode(dumps(payload));
              if |data| < LENGTH_LIMIT then r == Success(()) && outgoing == old(outgoing) + Frame(data)
              else r == Failure(TooLong) && outgoing == old(outgoing)
    {
      var data := Utf8.Encode(dumps(payload));
      if |data| >= LENGTH_LIMIT {
        return Failure(TooLong);
      }
      SendAll(Pack(|data|) + data);
      return Success(());
    }

    method ReceiveFrame<V>(loads: string -> Loaded<V>) returns (r: Result<V, FrameError>)
      modifies this`incoming
      ensures (r, incoming) == ReadFrame(old(incoming), loads)
    {
      var header := ReadExact(HEADER_BYTES);
      if header.Failure? {
        return Failure(header.error);
      }
      var raw := ReadExact(Unpack(header.value));
      if raw.Failure? {
        return Failure(raw.error);
      }
      var text := Utf8.Decode(raw.value);
      if text.None? {
        return Failure(UndecodableText);
      }
      match loads(text.value)
      case Object(v) => return Success(v);
      case OtherValue => return Failure(NonObject);
      case Malformed => return Failure(InvalidJson);
    }
  }

  // ----- the theorems -----

  lemma UnpackPack(n: nat)
    requires n < LENGTH_LIMIT
    ensures Unpack(Pack(n)) == n
  {
    var a, b, c := n / 0x100, n / 0x1_0000, n / 0x100_0000;
    assert n == a * 0x100 + n % 0x100;
    assert a == b * 0x100 + a % 0x100;
    assert b == c * 0x100 + b % 0x100;
  }

  lemma FrameIsTaken(data: seq<byte>, rest: seq<byte>)
    requires |data| < LENGTH_LIMIT
    ensures ReadExactly(Frame(data) + rest, HEADER_BYTES) == (Success(Pack(|data|)), data + rest)
    ensures ReadExactly(data + rest, Unpack(Pack(|data|))) == (Success(data), rest)
  {
    var stream := Frame(data) + rest;
    UnpackPack(|data|);
    assert stream[..HEADER_BYTES] == Pack(|data|);
    assert stream[HEADER_BYTES..] == data + rest;
    assert (data + rest)[..|data|] == data && (data + rest)[|data|..] == rest;
  }

  /** Reading what was written gives the payload back and consumes exactly the header and its data. */
  lemma FrameRoundTrip<V(!new)>(v: V, rest: seq<byte>, dumps: V -> string, loads: string -> Loaded<V>)
    requires loads(dumps(v)) == Object(v) && |Utf8.Encode(dumps(v))| < LENGTH_LIMIT
    ensures ReadFrame(Frame(Utf8.Encode(dumps(v))) + rest, loads) == (Success(v), rest)
  {
    var data := Utf8.Encode(dumps(v));
    Utf8.DecodeEncode(dumps(v));
    FrameIsTaken(data, rest);
  }

  /** A payload that is refused, for whichever reason, is consumed all the same: the stream stays in step. */
  lemma RefusedFrameIsConsumed<V(!new)>(data: seq<byte>, rest: seq<byte>, loads: string -> Loaded<V>)
    requires |data| < LENGTH_LIMIT
    requires Utf8.Decode(data).Some? ==> !loads(Utf8.Decode(data).value).Object?
    ensures var (r, left) := ReadFrame(Frame(data) + rest, loads);
            && left == rest
            && r == Failure(if Utf8.Decode(data).None? then UndecodableText
                            else if loads(Utf8.Decode(data).value) == Malformed then InvalidJson else NonObject)
  {
    FrameIsTaken(data, rest);
  }

  /** Any frame cut short raises the protocol error, saying how much was missing. */
  lemma TruncatedFrameFails<V(!new)>(data: seq<byte>, cut: nat, loads: string -> Loaded<V>)
    requires |data| < LENGTH_LIMIT && cut < HEADER_BYTES + |data|
    ensures ReadFrame(Frame(data)[..cut], loads) ==
            (Failure(if cut < HEADER_BYTES then ClosedEarly(HEADER_BYTES, HEADER_BYTES - cut)
                     else ClosedEarly(|data|, HEADER_BYTES + |data| - cut)), [])
  {
    UnpackPack(|data|);
    if cut >= HEADER_BYTES {
      assert Frame(data)[..cut][..HEADER_BYTES] == Pack(|data|);
    }
  }

  /** What a reader accepts is a frame of the stream, and nothing else was consumed. */
  lemma AcceptedFrameWasThere<V(!new)>(stream: seq<byte>, loads: string -> Loaded<V>)
    ensures var (r, rest) := ReadFrame(stream, loads);
            r.Success? ==> exists data :: |data| < LENGTH_LIMIT && stream == Frame(data) + rest
                                          && Utf8.Decode(data).Some? && loads(Utf8.Decode(data).value) == Object(r.value)
  {
    var (r, rest) := ReadFrame(stream, loads);
    if r.Success? {
      var length := Unpack(stream[..HEADER_BYTES]);
      var data := stream[HEADER_BYTES..][..length];
      PackUnpack(stream[..HEADER_BYTES]);
      assert stream == stream[..HEADER_BYTES] + (data + rest);
      assert stream == Frame(data) + rest;
    }
  }

  lemma PackUnpack(header: seq<byte>)
    requires |header| == HEADER_BYTES
    ensures Pack(Unpack(header)) == header
  {
    var n := Unpack(header);
    var h0, h1, h2, h3 := header[0] as nat, header[1] as nat, header[2] as nat, header[3] as nat;
    assert n / 0x100 == (h0 * 0x100 + h1) * 0x100 + h2 && n % 0x100 == h3;
    assert n / 0x1_0000 == h0 * 0x100 + h1;
    assert n / 0x100_0000 == h0;
  }

  /** Lexicographic order on bytes. */
  predicate Below(a: seq<byte>, b: seq<byte>) {
    b != [] && (a == [] || a[0] < b[0] || (a[0] == b[0] && Below(a[1..], b[1..])))
  }

  /** The length travels most significant byte first: headers are ordered as their lengths are. */
  lemma HeadersAreOrdered(n: nat, m: nat)
    requires n < m < LENGTH_LIMIT
    ensures Below(Pack(n), Pack(m))
  {
    UnpackPack(n);
    UnpackPack(m);
    var a, b := Pack(n), Pack(m);
    var k := if a[0] != b[0] then 0 else if a[1] != b[1] then 1 else if a[2] != b[2] then 2 else 3;
    BelowAt(a, b, k);
  }

  lemma {:induction false} BelowAt(a: seq<byte>, b: seq<byte>, k: nat)
    requires k < |a| && k < |b| && a[k] < b[k] && forall i :: 0 <= i < k ==> a[i] == b[i]
    ensures Below(a, b)
    decreases k
  {
    if k > 0 {
      BelowAt(a[1..], b[1..], k - 1);
    }
  }

  function FrameAll<V>(vs: seq<V>, dumps: V -> string): seq<byte>
    requires forall v :: v in vs ==> |Utf8.Encode(dumps(v))| < LENGTH_LIMIT
  {
    if vs == [] then [] else Frame(Utf8.Encode(dumps(vs[0]))) + FrameAll(vs[1..], dumps)
  }

  function ReadFrames<V>(stream: seq<byte>, n: nat, loads: string -> Loaded<V>):
    (Result<seq<V>, FrameError>, seq<byte>)
  {
    if n == 0 then (Success([]), stream) else
      var (first, rest) := ReadFrame(stream, loads);
      match first
      case Failure(e) => (Failure(e), rest)
      case Success(v) =>
        var (more, left) := ReadFrames(rest, n - 1, loads);
        match more
        case Failure(e) => (Failure(e), left)
        case Success(vs) => (Success([v] + vs), left)
  }

  /** Frames written one after another come back one after another, and nothing of what follows is taken. */
  lemma {:induction false} ConversationRoundTrip<V(!new)>(vs: seq<V>, rest: seq<byte>, dumps: V -> string,
                                                         loads: string -> Loaded<V>)
    requires forall v :: v in vs ==> loads(dumps(v)) == Object(v) && |Utf8.Encode(dumps(v))| < LENGTH_LIMIT
    ensures ReadFrames(FrameAll(vs, dumps) + rest, |vs|, loads) == (Success(vs), rest)
  {
    if vs == [] {
      assert FrameAll(vs, dumps) + rest == rest;
    } else {
      assert vs[0] in vs;
      var more := FrameAll(vs[1..], dumps) + rest;
      FrameAllFirst(vs, rest, dumps);
      FrameRoundTrip(vs[0], more, dumps, loads);
      ConversationRoundTrip(vs[1..], rest, dumps, loads);
      ReadOneMore(FrameAll(vs, dumps) + rest, more, vs, rest, loads);
    }
  }

  lemma FrameAllFirst<V(!new)>(vs: seq<V>, rest: seq<byte>, dumps: V -> string)
    requires vs != [] && forall v :: v in vs ==> |Utf8.Encode(dumps(v))| < LENGTH_LIMIT
    ensures FrameAll(vs, dumps) + rest == Frame(Utf8.Encode(dumps(vs[0]))) + (FrameAll(vs[1..], dumps) + rest)
  {
  }

  lemma ReadOneMore<V(!new)>(stream: seq<byte>, more: seq<byte>, vs: seq<V>, rest: seq<byte>, loads: string -> Loaded<V>)
    requires vs != [] && ReadFrame(stream, loads) == (Success(vs[0]), more)
    requires ReadFrames(more, |vs| - 1, loads) == (Success(vs[1..]), rest)
    ensures ReadFrames(stream, |vs|, loads) == (Success(vs), rest)
  {
    assert [vs[0]] + vs[1..] == vs;
  }

  /** No frame is the beginning of another, so a stream of frames splits in one way only. */
  lemma FramesArePrefixFree(a: seq<byte>, b: seq<byte>, x: seq<byte>, y: seq<byte>)
    requires |a| < LENGTH_LIMIT && |b| < LENGTH_LIMIT
    requires Frame(a) + x == Frame(b) + y
    ensures a == b && x == y
  {
    var s, t := Frame(a) + x, Frame(b) + y;
    assert s[..HEADER_BYTES] == Pack(|a|) && t[..HEADER_BYTES] == Pack(|b|);
    UnpackPack(|a|);
    UnpackPack(|b|);
    var n := HEADER_BYTES + |a|;
    assert s[HEADER_BYTES..n] == a && t[HEADER_BYTES..n] == b;
    assert s[n..] == x && t[n..] == y;
  }
}
