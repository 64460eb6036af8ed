/** Pipe framing (esptool/src/ipc/PipeChannel.cpp): a little-endian length, a tag and a payload,
    carried by a byte stream that reads and writes may cut anywhere. */
module PipeChannel {
  import opened Wrappers
  import opened StrHelpers

  newtype byte = x: int | 0 <= x < 256

  const TAG_BYTES: nat := 4
  const BUFFER_SIZE: nat := 65536
  const MAX_PAYLOAD: nat := BUFFER_SIZE - TAG_BYTES

  // ---------------------------------------------------------------- integers

  /** The four bytes of a number, lowest first. */
  function LittleEndian(value: uint32): (r: seq<byte>)
    ensures |r| == 4
  {
    var v := value as int;
    [(v % 0x100) as byte, (v / 0x100 % 0x100) as byte, (v / 0x1_0000 % 0x100) as byte, (v / 0x100_0000 % 0x100) as byte]
  }

  function FromLittleEndian(s: seq<byte>): (v: uint32)
    requires |s| == 4
  {
    (s[0] as int + 0x100 * s[1] as int + 0x1_0000 * s[2] as int + 0x100_0000 * s[3] as int) as uint32
  }

  lemma LittleEndianRoundTrip(v: uint32)
    ensures FromLittleEndian(LittleEndian(v)) == v
  {
    var n := v as int;
    var q1 := n / 0x100;
    var q2 := q1 / 0x100;
    var q3 := q2 / 0x100;
    assert n == n % 0x100 + 0x100 * q1 && q1 == q1 % 0x100 + 0x100 * q2 && q2 == q2 % 0x100 + 0x100 * q3;
    assert n / 0x1_0000 == q2 && n / 0x100_0000 == q3 && q3 % 0x100 == q3;
  }

  /** Four bytes are one number only, and its bytes are those four. */
  lemma LittleEndianIsOnto(s: seq<byte>)
    requires |s| == 4
    ensures LittleEndian(FromLittleEndian(s)) == s
  {
    var a, b, c, d := s[0] as int, s[1] as int, s[2] as int, s[3] as int;
    LowByte(a, b + 0x100 * (c + 0x100 * d));
    LowByte(b, c + 0x100 * d);
    LowByte(c, d);
    LowTwo(a + 0x100 * b, c + 0x100 * d);
    LowThree(a + 0x100 * b + 0x1_0000 * c, d);
  }

  lemma LowByte(low: nat, rest: nat)
    requires low < 0x100
    ensures (low + 0x100 * rest) / 0x100 == rest && (low + 0x100 * rest) % 0x100 == low
  {}

  lemma LowTwo(low: nat, rest: nat)
    requires low < 0x1_0000
    ensures (low + 0x1_0000 * rest) / 0x1_0000 == rest
  {}

  lemma LowThree(low: nat, rest: nat)
    requires low < 0x100_0000
    ensures (low + 0x100_0000 * rest) / 0x100_0000 == rest
  {}

  /** The lowest byte comes first, and so do its multiples of 256. */
  lemma LowestFirst(v: uint32, s: seq<byte>)
    requires |s| == 4
    ensures LittleEndian(v)[0] as int == v as int % 256 && LittleEndian(v)[3] as int == v as int / 0x100_0000
    ensures FromLittleEndian(s) as int == s[0] as int + 256 * (s[1] as int + 256 * (s[2] as int + 256 * s[3] as int))
    ensures LittleEndian(0x0102_0304) == [4, 3, 2, 1]
  {}

  method AppendUint32(out: seq<byte>, value: uint32) returns (r: seq<byte>)
    ensures r == out + LittleEndian(value)
  {
    r := out;
    var rest := value as int;
    ghost var all := LittleEndian(value);
    for k := 0 to 4
      invariant rest == value as int / Scale(k)
      invariant r == out + all[..k]
    {
      r := r + [(rest % 0x100) as byte];
      rest := rest / 0x100;
    }
  }

  function Scale(k: nat): (r: nat)
    requires k <= 4
    ensures r > 0
  {
    match k
    case 0 => 1
    case 1 => 0x100
    case 2 => 0x1_0000
    case 3 => 0x100_0000
    case 4 => 0x1_0000_0000
  }

  method ReadUint32(remaining: seq<byte>) returns (value: Option<uint32>, rest: seq<byte>)
    ensures |remaining| < 4 ==> value == None && rest == remaining
    ensures |remaining| >= 4 ==> value == Some(FromLittleEndian(remaining[..4])) && rest == remaining[4..]
  {
    if |remaining| < 4 {
      return None, remaining;
    }
    var v := 0;
    for k := 0 to 4
      invariant 0 <= v < Scale(k)
      invariant v == (if k > 0 then remaining[0] as int else 0) + (if k > 1 then 0x100 * remaining[1] as int else 0)
                     + (if k > 2 then 0x1_0000 * remaining[2] as int else 0) + (if k > 3 then 0x100_0000 * remaining[3] as int else 0)
    {
      v := v + remaining[k] as int * Scale(k);
    }
    return Some(v as uint32), remaining[4..];
  }

  /** A signed status travels as its 32 bits. */
  function ToBits(status: int32): uint32 {
    if status >= 0 then status as uint32 else (status as int + 0x1_0000_0000) as uint32
  }

  function FromBits(bits: uint32): int32 {
    if bits < 0x8000_0000 then bits as int32 else (bits as int - 0x1_0000_0000) as int32
  }

  lemma StatusRoundTrip(status: int32, bits: uint32)
    ensures FromBits(ToBits(status)) == status && ToBits(FromBits(bits)) == bits
    ensures ToBits(status) as int == status as int % 0x1_0000_0000
  {}

  // ---------------------------------------------------------------- frames

  datatype Message = Message(tag: uint32, payload: seq<byte>)

  function Low32(n: nat): uint32 {
    (n % 0x1_0000_0000) as uint32
  }

  /** The frame of a message; its length is cut to 32 bits. */
  function Frame(m: Message): seq<byte> {
    LittleEndian(Low32(|m.payload| + TAG_BYTES)) + LittleEndian(m.tag) + m.payload
  }

  method EncodeFrame(tag: uint32, payload: seq<byte>) returns (frame: seq<byte>)
    ensures frame == Frame(Message(tag, payload))
  {
    frame := AppendUint32([], Low32(|payload| + TAG_BYTES));
    frame := AppendUint32(frame, tag);
    frame := frame + payload;
  }

  method DecodeFrame(body: seq<byte>) returns (ok: bool, m: Message)
    ensures ok <==> |body| >= 4
    ensures ok ==> m == Message(FromLittleEndian(body[..4]), body[4..])
  {
    var parsed, rest := ReadUint32(body);
    if parsed == None {
      return false, Message(0, []);
    }
    return true, Message(parsed.value, rest);
  }

  /** A frame in bytes: the number of bytes behind it, cut to 32 bits, the tag, and the payload. */
  lemma FrameSays(m: Message)
    ensures var f, n := Frame(m), |m.payload| + 4;
      && |f| == n + 4 && f[8..] == m.payload && FromLittleEndian(f[4..8]) == m.tag
      && FromLittleEndian(f[..4]) as int == n % 0x1_0000_0000
  {
    LittleEndianRoundTrip(Low32(|m.payload| + TAG_BYTES));
    LittleEndianRoundTrip(m.tag);
    assert Frame(m)[..4] == LittleEndian(Low32(|m.payload| + TAG_BYTES));
    assert Frame(m)[4..8] == LittleEndian(m.tag);
  }

  // ---------------------------------------------------------------- streams

  /** What a receiver makes of a stream: the complete messages, the bytes after them, and whether
      it stopped at a length it refuses. */
  datatype Decoding = Decoding(messages: seq<Message>, leftover: seq<byte>, refused: bool)

  function Length(s: seq<byte>): nat
    requires |s| >= 4
  {
    FromLittleEndian(s[..4]) as nat
  }

  predicate Acceptable(length: nat) {
    TAG_BYTES <= length <= BUFFER_SIZE
  }

  /** A receiver takes lengths from 4 to 65536. */
  lemma AcceptableSays(length: nat)
    ensures Acceptable(length) <==> 4 <= length <= 65536
  {}

  function Body(s: seq<byte>): Message
    requires |s| >= 8
  {
    Message(FromLittleEndian(s[4..8]), s[8..])
  }

  function DecodeStream(s: seq<byte>): Decoding {
    if |s| < 4 then Decoding([], s, false)
    else if !Acceptable(Length(s)) then Decoding([], s, true)
    else if |s| < 4 + Length(s) then Decoding([], s, false)
    else
      var rest := DecodeStream(s[4 + Length(s)..]);
      Decoding([Body(s[..4 + Length(s)])] + rest.messages, rest.leftover, rest.refused)
  }

  function EncodeAll(messages: seq<Message>): seq<byte> {
    if messages == [] then [] else Frame(messages[0]) + EncodeAll(messages[1..])
  }

  predicate Fits(m: Message) {
    |m.payload| <= MAX_PAYLOAD
  }

  lemma FrameParts(m: Message, tail: seq<byte>)
    ensures var s := Frame(m) + tail;
      |s| >= 8 && Length(s) == (|m.payload| + TAG_BYTES) % 0x1_0000_0000
      && s[4..8] == LittleEndian(m.tag) && s[8..] == m.payload + tail
      && FromLittleEndian(s[4..8]) == m.tag
  {
    var s := Frame(m) + tail;
    LittleEndianRoundTrip(Low32(|m.payload| + TAG_BYTES));
    assert s[..4] == LittleEndian(Low32(|m.payload| + TAG_BYTES));
    assert s[4..8] == LittleEndian(m.tag);
    LittleEndianRoundTrip(m.tag);
  }

  /** The first frame of a stream is decoded, whatever comes after it. */
  lemma DecodeFirst(m: Message, tail: seq<byte>)
    requires Fits(m)
    ensures var d, rest := DecodeStream(Frame(m) + tail), DecodeStream(tail);
      d == Decoding([m] + rest.messages, rest.leftover, rest.refused)
  {
    FrameParts(m, tail);
    var s := Frame(m) + tail;
    var n := 4 + Length(s);
    assert n == |Frame(m)|;
    assert s[..n] == Frame(m) && s[n..] == tail;
    FrameParts(m, []);
    assert Frame(m) + [] == Frame(m);
    assert Body(Frame(m)).payload == m.payload;
  }

  /** A strict prefix of one frame decodes to nothing and is kept. */
  lemma DecodePartial(m: Message, n: nat)
    requires Fits(m) && n < |Frame(m)|
    ensures DecodeStream(Frame(m)[..n]) == Decoding([], Frame(m)[..n], false)
  {
    FrameParts(m, []);
    var s := Frame(m)[..n];
    assert Frame(m) + [] == Frame(m);
    if n >= 4 {
      assert s[..4] == Frame(m)[..4];
      assert Acceptable(Length(s)) && |s| < 4 + Length(s);
    }
  }

  /** Whatever part of the stream has arrived, the receiver has a prefix of the messages, refused
      nothing, and holds back exactly the bytes of the message it is in. */
  lemma {:induction false} DecodePrefix(messages: seq<Message>, n: nat)
    requires forall k :: 0 <= k < |messages| ==> Fits(messages[k])
    requires n <= |EncodeAll(messages)|
    ensures var d := DecodeStream(EncodeAll(messages)[..n]);
      && !d.refused && d.messages <= messages
      && EncodeAll(messages)[..n] == EncodeAll(d.messages) + d.leftover
      && (n == |EncodeAll(messages)| ==> d == Decoding(messages, [], false))
  {
    if messages != [] {
      var m, rest := messages[0], messages[1..];
      var all, others := EncodeAll(messages), EncodeAll(rest);
      assert all == Frame(m) + others;
      if n < |Frame(m)| {
        assert all[..n] == Frame(m)[..n];
        DecodePartial(m, n);
      } else {
        var k := n - |Frame(m)|;
        assert all[..n] == Frame(m) + others[..k];
        DecodeFirst(m, others[..k]);
        DecodePrefix(rest, k);
        OneMoreDecoded(m, rest, others[..k], DecodeStream(others[..k]));
        assert messages == [m] + rest;
      }
    }
  }

  lemma OneMoreDecoded(m: Message, rest: seq<Message>, taken: seq<byte>, d: Decoding)
    requires d.messages <= rest && taken == EncodeAll(d.messages) + d.leftover
    ensures [m] + d.messages <= [m] + rest
    ensures Frame(m) + taken == EncodeAll([m] + d.messages) + d.leftover
  {
    assert ([m] + d.messages)[1..] == d.messages;
    assert EncodeAll([m] + d.messages) == Frame(m) + EncodeAll(d.messages);
  }

  /** Every sequence of messages with payloads up to 65532 bytes is decoded exactly. */
  lemma StreamRoundTrip(messages: seq<Message>)
    requires forall k :: 0 <= k < |messages| ==> Fits(messages[k])
    ensures DecodeStream(EncodeAll(messages)) == Decoding(messages, [], false)
  {
    DecodePrefix(messages, |EncodeAll(messages)|);
    assert EncodeAll(messages)[..|EncodeAll(messages)|] == EncodeAll(messages);
  }

  /** And no longer one is: a frame comes back as itself exactly if its payload fits. A longer
      one is refused, or, from 4 GiB on, cut where its 32-bit length says. */
  lemma FrameRoundTripExactlyWhen(m: Message)
    ensures DecodeStream(Frame(m)) == Decoding([m], [], false) <==> Fits(m)
  {
    assert Frame(m) + [] == Frame(m);
    if Fits(m) {
      DecodeFirst(m, []);
    } else {
      FrameParts(m, []);
      var s := Frame(m);
      if Acceptable(Length(s)) {
        assert |Body(s[..4 + Length(s)]).payload| == Length(s) - 4 < |m.payload|;
      }
    }
  }

  // ---------------------------------------------------------------- any fragmentation

  /** What happens on a pipe: a write of some bytes, or a read of some. */
  datatype Transfer = Wrote(chunk: seq<byte>) | Took(chunk: seq<byte>)

  function Sent(steps: seq<Transfer>): seq<byte> {
    if steps == [] then []
    else Sent(steps[..|steps| - 1]) + (if steps[|steps| - 1].Wrote? then steps[|steps| - 1].chunk else [])
  }

  function Got(steps: seq<Transfer>): seq<byte> {
    if steps == [] then []
    else Got(steps[..|steps| - 1]) + (if steps[|steps| - 1].Took? then steps[|steps| - 1].chunk else [])
  }

  /** The pipe is first in, first out: a read takes bytes from the front of what was written and
      not read yet. */
  ghost predicate Fifo(steps: seq<Transfer>) {
    steps == [] ||
    var front, last := steps[..|steps| - 1], steps[|steps| - 1];
    Fifo(front) && (last.Took? ==> Got(front) + last.chunk <= Sent(front))
  }

  lemma {:induction false} GotIsPrefixOfSent(steps: seq<Transfer>)
    requires Fifo(steps)
    ensures Got(steps) <= Sent(steps)
  {
    if steps != [] {
      GotIsPrefixOfSent(steps[..|steps| - 1]);
    }
  }

  /** For every interleaving of writes and reads, cut anywhere: the receiver has decoded a prefix
      of the messages, in order, and once it has taken every byte it has decoded them all with
      nothing left over. */
  lemma FragmentationIsInvisible(messages: seq<Message>, steps: seq<Transfer>)
    requires forall k :: 0 <= k < |messages| ==> Fits(messages[k])
    requires Fifo(steps) && Sent(steps) <= EncodeAll(messages)
    ensures var d := DecodeStream(Got(steps));
      && !d.refused && d.messages <= messages && Got(steps) == EncodeAll(d.messages) + d.leftover
      && (Got(steps) == EncodeAll(messages) ==> d == Decoding(messages, [], false))
  {
    GotIsPrefixOfSent(steps);
    assert Got(steps) == EncodeAll(messages)[..|Got(steps)|];
    DecodePrefix(messages, |Got(steps)|);
  }

  // ---------------------------------------------------------------- one end of a pipe

  datatype Fault = TransferFailed | Disconnected | BadLength

  /** One end of a pipe, with the bytes it has taken and put so far, and how many transfers failed
      or moved nothing. Any transfer may do that, and any other may move fewer bytes than asked. */
  class Pipe {
    ghost var got: seq<byte>
    ghost var put: seq<byte>
    ghost var faults: nat

    method TransferRead(n: nat) returns (ok: bool, data: seq<byte>)
      modifies this`got, this`faults
      ensures |data| <= n && got == old(got) + data && (!ok ==> data == [])
      ensures faults == old(faults) + (if data == [] then 1 else 0)
    {
      ok, data := *, *;
      if !ok || |data| > n {
        ok, data := false, [];
      }
      got := got + data;
      faults := faults + (if data == [] then 1 else 0);
    }

    method TransferWrite(buffer: seq<byte>) returns (ok: bool, n: nat)
      modifies this`put, this`faults
      ensures n <= |buffer| && put == old(put) + buffer[..n] && (!ok ==> n == 0)
      ensures faults == old(faults) + (if n == 0 then 1 else 0)
    {
      ok, n := *, *;
      if !ok || n > |buffer| {
        ok, n := false, 0;
      }
      put := put + buffer[..n];
      faults := faults + (if n == 0 then 1 else 0);
    }

    /** Reads until there are n bytes; a read that moves nothing is the end of the connection. */
    method ReadExactly(n: nat) returns (r: Result<seq<byte>, Fault>, ghost taken: seq<byte>)
      modifies this`got, this`faults
      ensures got == old(got) + taken
      ensures faults == old(faults) + (if r.Failure? then 1 else 0)
      ensures r.Success? ==> r.value == taken && |taken| == n
      ensures r.Failure? ==> |taken| < n && (r.error == TransferFailed || r.error == Disconnected)
    {
      var data: seq<byte> := [];
      while |data| < n
        invariant |data| <= n && got == old(got) + data && faults == old(faults)
        decreases n - |data|
      {
        var ok, chunk := TransferRead(n - |data|);
        if !ok {
          return Failure(TransferFailed), data;
        }
        if chunk == [] {
          return Failure(Disconnected), data;
        }
        data := data + chunk;
      }
      return Success(data), data;
    }

    /** Writes all of the buffer, or fails after a strict prefix of it. */
    method WriteExactly(buffer: seq<byte>) returns (r: Option<Fault>, ghost done: nat)
      modifies this`put, this`faults
      ensures done <= |buffer| && put == old(put) + buffer[..done]
      ensures r == None <==> done == |buffer|
      ensures r != Some(BadLength)
      ensures faults == old(faults) + (if r.Some? then 1 else 0)
    {
      var remaining := buffer;
      done := 0;
      while remaining != []
        invariant done <= |buffer| && remaining == buffer[done..] && put == old(put) + buffer[..done]
          && faults == old(faults)
        decreases |remaining|
      {
        var ok, n := TransferWrite(remaining);
        if !ok {
          return Some(TransferFailed), done;
        }
        if n == 0 {
          return Some(Disconnected), done;
        }
        assert buffer[..done + n] == buffer[..done] + remaining[..n];
        remaining := remaining[n..];
        done := done + n;
      }
      return None, done;
    }

    /** Receives one frame, as both ends do: what it takes off the pipe decodes to the message it
        returns and to nothing else; if it fails, no complete message was taken. */
    method ReceiveFrame() returns (r: Result<Message, Fault>, ghost taken: seq<byte>)
      modifies this`got, this`faults
      ensures got == old(got) + taken
      ensures r.Success? || r == Failure(BadLength) <==> faults == old(faults)
      ensures r.Success? ==> DecodeStream(taken) == Decoding([r.value], [], false)
      ensures r.Failure? ==> DecodeStream(taken).messages == []
      ensures DecodeStream(taken).refused <==> r == Failure(BadLength)
    {
      var head;
      head, taken := ReadExactly(4);
      if head.Failure? {
        return Failure(head.error), taken;
      }
      var length, rest := ReadUint32(head.value);
      assert head.value[..4] == head.value;
      if length.value as int < TAG_BYTES || length.value as int > BUFFER_SIZE {
        return Failure(BadLength), taken;
      }
      var body;
      ghost var more;
      body, more := ReadExactly(length.value as nat);
      taken := taken + more;
      assert taken[..4] == head.value;
      if body.Failure? {
        return Failure(body.error), taken;
      }
      // A body of an accepted length is never too short for its tag.
      var ok, m := DecodeFrame(body.value);
      assert ok;
      ReceivedOne(taken, m);
      return Success(m), taken;
    }

    /** The client's exchange: the request goes out as one frame, the answer comes back as one. */
    method Exchange(request: Message) returns (r: Result<Response, Fault>, ghost taken: seq<byte>)
      modifies this`got, this`put, this`faults
      ensures r.Success? || r == Failure(BadLength) <==> faults == old(faults)
      ensures got == old(got) + taken && old(put) <= put <= old(put) + Frame(request)
      ensures r.Success? ==> put == old(put) + Frame(request)
      ensures r.Success? ==> DecodeStream(taken) == Decoding([AsMessage(r.value)], [], false)
      ensures r.Failure? ==> DecodeStream(taken).messages == []
    {
      var frame := EncodeFrame(request.tag, request.payload);
      var failed;
      ghost var done;
      failed, done := WriteExactly(frame);
      if failed.Some? {
        taken := [];
        return Failure(failed.value), taken;
      }
      var answer;
      answer, taken := ReceiveFrame();
      if answer.Failure? {
        return Failure(answer.error), taken;
      }
      StatusRoundTrip(0, answer.value.tag);
      return Success(Response(FromBits(answer.value.tag), answer.value.payload)), taken;
    }

    /** The server's side of one connection: the request it decodes is answered by the handler's
        response, as one frame. */
    method ServeOne(handler: Message -> Response) returns (error: Option<Fault>, ghost taken: seq<byte>, ghost served: Option<Message>)
      modifies this`got, this`put, this`faults
      ensures got == old(got) + taken
      ensures error == None || error == Some(BadLength) <==> faults == old(faults)
      ensures DecodeStream(taken).messages == if served.Some? then [served.value] else []
      ensures served == None ==> put == old(put) && error.Some?
      ensures served.Some? ==> old(put) <= put <= old(put) + Frame(AsMessage(handler(served.value)))
      ensures served.Some? && error == None ==> put == old(put) + Frame(AsMessage(handler(served.value)))
    {
      var request;
      request, taken := ReceiveFrame();
      if request.Failure? {
        return Some(request.error), taken, None;
      }
      var response := handler(request.value);
      var frame := EncodeFrame(ToBits(response.status), response.payload);
      ghost var done;
      error, done := WriteExactly(frame);
      served := Some(request.value);
    }
  }

  lemma ReceivedOne(taken: seq<byte>, m: Message)
    requires |taken| >= 8 && Acceptable(Length(taken)) && |taken| == 4 + Length(taken)
    requires m == Message(FromLittleEndian(taken[4..][..4]), taken[4..][4..])
    ensures DecodeStream(taken) == Decoding([m], [], false)
  {
    var n := 4 + Length(taken);
    assert taken[..n] == taken && taken[n..] == [];
    assert taken[4..][..4] == taken[4..8] && taken[4..][4..] == taken[8..];
  }

  datatype Response = Response(status: int32, payload: seq<byte>)

  function AsMessage(r: Response): Message {
    Message(ToBits(r.status), r.payload)
  }

  lemma OneFrame(m: Message)
    ensures EncodeAll([m]) == Frame(m)
  {
    assert EncodeAll([m][1..]) == [];
  }

  /** A prefix of one frame that decodes to a message decodes to that one. */
  lemma PrefixOfFrame(m: Message, taken: seq<byte>, seen: Message)
    requires Fits(m) && taken <= Frame(m) && DecodeStream(taken).messages == [seen]
    ensures seen == m
  {
    OneFrame(m);
    DecodePrefix([m], |taken|);
    assert taken == EncodeAll([m])[..|taken|];
    assert [seen] <= [m];
    assert [seen][0] == [m][0];
  }

  /** End to end, over any fragmentation and any failure: the server took a prefix `up` of what the
      client put, and the client a prefix `down` of what the server put. If the server saw a
      request it is the client's, and if the client has a response it is the handler's, its signed
      status included. */
  lemma ExchangeIsFaithful(
    request: Message, handler: Message -> Response, up: seq<byte>, seen: Message, sent: seq<byte>, down: seq<byte>, answer: Response)
    requires Fits(request) && Fits(AsMessage(handler(request)))
    requires up <= Frame(request) && DecodeStream(up).messages == [seen]
    requires down <= sent <= Frame(AsMessage(handler(seen)))
    requires DecodeStream(down) == Decoding([AsMessage(answer)], [], false)
    ensures seen == request && answer == handler(request)
  {
    PrefixOfFrame(request, up, seen);
    PrefixOfFrame(AsMessage(handler(seen)), down, AsMessage(answer));
    StatusRoundTrip(answer.status, 0);
    StatusRoundTrip(handler(seen).status, 0);
  }
}
