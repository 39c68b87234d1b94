/** The frames of _vendored/monetarium-wallet/ipc.go and their decoding. */
module PipeMessages {
  import opened Basics
  import opened ByteStrings
  import opened Wrappers

  const PROTOCOL_VERSION: Byte := 1
  const TWO_TO_32: nat := 0x1_0000_0000

  datatype Message = Message(kind: Bytes, payload: Bytes)

  function BytesOf(s: string): Bytes {
    if s == "" then [] else [(s[0] as int % 256) as Byte] + BytesOf(s[1..])
  }

  function JsonrpcListenerEvent(address: Bytes): Message {
    Message(BytesOf("jsonrpclistener"), address)
  }

  function GrpcListenerEvent(address: Bytes): Message {
    Message(BytesOf("grpclistener"), address)
  }

  function IssuedClientCertEvent(certs: Bytes): Message {
    Message(BytesOf("issuedclientcertificate"), certs)
  }

  /** uint32(len(payload)) */
  function PayloadSize(m: Message): nat {
    |m.payload| % TWO_TO_32
  }

  function LittleEndian32(n: nat): (b: Bytes)
    ensures |b| == 4
  {
    [(n % 256) as Byte, (n / 0x100 % 256) as Byte, (n / 0x1_0000 % 256) as Byte, (n / 0x100_0000 % 256) as Byte]
  }

  function FromLittleEndian32(b: Bytes): nat
    requires |b| == 4
  {
    b[0] as nat + 0x100 * b[1] as nat + 0x1_0000 * b[2] as nat + 0x100_0000 * b[3] as nat
  }

  function Header(m: Message): Bytes {
    [PROTOCOL_VERSION, LengthByte(|m.kind|)] + m.kind + LittleEndian32(PayloadSize(m))
  }

  function Encode(m: Message): Bytes {
    Header(m) + m.payload
  }

  function EncodeAll(ms: seq<Message>): Bytes {
    if ms == [] then [] else Encode(ms[0]) + EncodeAll(ms[1..])
  }

  // ---------------------------------------------------------------- decoding

  /** Reads one frame, as the format is documented, and what follows it. */
  function Decode(s: Bytes): (r: Option<(Message, Bytes)>)
    ensures r.Some? ==> |r.value.1| < |s|
  {
    if |s| < 2 || s[0] != PROTOCOL_VERSION then None
    else
      var n := s[1] as nat;
      if |s| < 2 + n + 4 then None
      else
        var size := FromLittleEndian32(s[2 + n..2 + n + 4]);
        if |s| < 2 + n + 4 + size then None
        else Some((Message(s[2..2 + n], s[2 + n + 4..2 + n + 4 + size]), s[2 + n + 4 + size..]))
  }

  /** Reads frames for as long as there are whole ones. */
  function DecodeAll(s: Bytes): seq<Message>
    decreases |s|
  {
    match Decode(s)
    case None => []
    case Some((m, rest)) => [m] + DecodeAll(rest)
  }

  /** The lengths that the header can record. */
  predicate Sendable(m: Message) {
    |m.kind| <= 255 && |m.payload| < TWO_TO_32
  }

  lemma LittleEndianRoundTrip(n: nat)
    requires n < TWO_TO_32
    ensures FromLittleEndian32(LittleEndian32(n)) == n
  {
    var q1, q2 := n / 0x100, n / 0x1_0000;
    assert q2 == q1 / 0x100 && n / 0x100_0000 == q2 / 0x100;
    assert n == 0x100 * q1 + n % 256;
    assert q1 == 0x100 * q2 + q1 % 256;
    assert q2 == 0x100 * (q2 / 0x100) + q2 % 256;
  }

  /** The fields of a frame, whatever follows it. */
  lemma FrameFields(m: Message, rest: Bytes)
    ensures var s := Encode(m) + rest;
            var k := |m.kind|;
            && |s| == 6 + k + |m.payload| + |rest|
            && s[0] == PROTOCOL_VERSION && s[1] == LengthByte(k) && s[2..2 + k] == m.kind
            && s[2 + k..6 + k] == LittleEndian32(PayloadSize(m))
            && s[6 + k..6 + k + |m.payload|] == m.payload && s[6 + k + |m.payload|..] == rest
  {
  }

  /** A frame is read back, and the rest left alone, exactly when its lengths fit the header. */
  lemma FrameRoundTrip(m: Message, rest: Bytes)
    ensures Decode(Encode(m) + rest) == Some((m, rest)) <==> Sendable(m)
  {
    FrameFields(m, rest);
    hide LittleEndian32, FromLittleEndian32;
    var s := Encode(m) + rest;
    if |m.kind| <= 255 {
      LittleEndianRoundTrip(PayloadSize(m));
      assert s[1] as nat == |m.kind|;
      if |m.payload| >= TWO_TO_32 && Decode(s).Some? {
        assert |Decode(s).value.0.payload| == PayloadSize(m) < TWO_TO_32;
      }
    } else if Decode(s).Some? {
      assert |Decode(s).value.0.kind| == s[1] as nat <= 255;
    }
  }

  /** Any messages with lengths that fit are read back from their concatenated frames. */
  lemma {:induction false} StreamRoundTrip(ms: seq<Message>)
    requires forall m :: m in ms ==> Sendable(m)
    ensures DecodeAll(EncodeAll(ms)) == ms
  {
    if ms != [] {
      FrameRoundTrip(ms[0], EncodeAll(ms[1..]));
      StreamRoundTrip(ms[1..]);
    }
  }

  /** Different message sequences never make the same byte stream. */
  lemma StreamIsUnique(a: seq<Message>, b: seq<Message>)
    requires (forall m :: m in a ==> Sendable(m)) && (forall m :: m in b ==> Sendable(m))
    requires EncodeAll(a) == EncodeAll(b)
    ensures a == b
  {
    StreamRoundTrip(a);
    StreamRoundTrip(b);
  }

  lemma TruncatedFrame(m: Message, n: nat)
    requires Sendable(m) && n < |Encode(m)|
    ensures Decode(Encode(m)[..n]) == None
  {
    hide Decode, Encode, Header, LittleEndian32, FromLittleEndian32;
    var f := Encode(m);
    FrameFields(m, []);
    assert f + [] == f;
    LittleEndianRoundTrip(PayloadSize(m));
    ShortFrame(f, n, |m.kind|, |m.payload|);
  }

  /** A frame of these lengths does not decode once it is cut short. */
  lemma ShortFrame(f: Bytes, n: nat, k: nat, size: nat)
    requires n < |f| == 6 + k + size && f[1] as nat == k && FromLittleEndian32(f[2 + k..6 + k]) == size
    ensures Decode(f[..n]) == None
  {
    hide FromLittleEndian32;
    if n >= 6 + k {
      SliceOfTake(f, n, 2 + k, 6 + k);
    }
  }

  lemma SliceOfTake<T>(s: seq<T>, n: nat, i: nat, j: nat)
    requires i <= j <= n <= |s|
    ensures s[..n][i..j] == s[i..j]
  {
  }

  /** The number of frames that lie entirely within the first `n` bytes. */
  function Whole(ms: seq<Message>, n: nat): (k: nat)
    ensures k <= |ms|
    decreases |ms|
  {
    if ms == [] || n < |Encode(ms[0])| then 0 else 1 + Whole(ms[1..], n - |Encode(ms[0])|)
  }

  lemma {:induction false} WholeIsMost(ms: seq<Message>, n: nat)
    ensures |EncodeAll(ms[..Whole(ms, n)])| <= n
    ensures Whole(ms, n) < |ms| ==> n < |EncodeAll(ms[..Whole(ms, n) + 1])|
    decreases |ms|
  {
    hide Encode;
    if ms != [] {
      var frame := |Encode(ms[0])|;
      EncodeFirst(ms, 0);
      if frame <= n {
        var k := Whole(ms[1..], n - frame);
        WholeIsMost(ms[1..], n - frame);
        EncodeFirst(ms, k);
        if k + 1 < |ms| {
          EncodeFirst(ms, k + 1);
        }
      }
    }
  }

  lemma EncodeFirst(ms: seq<Message>, k: nat)
    requires k < |ms|
    ensures |EncodeAll(ms[..k + 1])| == |Encode(ms[0])| + |EncodeAll(ms[1..][..k])|
  {
    hide Encode;
    assert ms[..k + 1][1..] == ms[1..][..k];
  }

  /** A stream cut off anywhere still decodes to the messages sent whole before the cut: all of them, and
      nothing else. */
  lemma {:induction false} CutStreamIsPrefix(ms: seq<Message>, n: nat)
    requires n <= |EncodeAll(ms)| && forall m :: m in ms ==> Sendable(m)
    ensures DecodeAll(EncodeAll(ms)[..n]) == ms[..Whole(ms, n)]
    decreases |ms|
  {
    hide Decode, Encode, Sendable;
    if ms != [] {
      var frame, rest := Encode(ms[0]), EncodeAll(ms[1..]);
      WholeNext(ms, n);
      TakeOfConcat(frame, rest, n);
      hide DecodeAll, Whole;
      if n < |frame| {
        TruncatedFrame(ms[0], n);
        DecodeNothing(frame[..n]);
      } else {
        FrameRoundTrip(ms[0], rest[..n - |frame|]);
        DecodeFirst(frame + rest[..n - |frame|], ms[0], rest[..n - |frame|]);
        CutStreamIsPrefix(ms[1..], n - |frame|);
      }
      return;
    }
  }

  lemma WholeNext(ms: seq<Message>, n: nat)
    requires ms != []
    ensures ms[..Whole(ms, n)]
         == if n < |Encode(ms[0])| then [] else [ms[0]] + ms[1..][..Whole(ms[1..], n - |Encode(ms[0])|)]
  {
  }

  lemma TakeOfConcat<T>(a: seq<T>, b: seq<T>, n: nat)
    requires n <= |a + b|
    ensures (a + b)[..n] == if n < |a| then a[..n] else a + b[..n - |a|]
  {
  }

  lemma DecodeNothing(s: Bytes)
    requires Decode(s) == None
    ensures DecodeAll(s) == []
  {
  }

  lemma DecodeFirst(s: Bytes, m: Message, rest: Bytes)
    requires Decode(s) == Some((m, rest))
    ensures DecodeAll(s) == [m] + DecodeAll(rest)
  {
  }

  /** The three event types are told apart by their names, which fit the length byte. */
  lemma EventTypes(a: Bytes, b: Bytes, c: Bytes)
    ensures Spells(JsonrpcListenerEvent(a).kind, "jsonrpclistener")
    ensures Spells(GrpcListenerEvent(b).kind, "grpclistener")
    ensures Spells(IssuedClientCertEvent(c).kind, "issuedclientcertificate")
    ensures |JsonrpcListenerEvent(a).kind| == 15 && |GrpcListenerEvent(b).kind| == 12
    ensures |IssuedClientCertEvent(c).kind| == 23
  {
    hide BytesOf;
    JsonrpcName();
    GrpcName();
    CertName();
  }

  lemma JsonrpcName()
    ensures Spells(BytesOf("jsonrpclistener"), "jsonrpclistener")
  {
    hide BytesOf, Spells;
    BytesOfSpells("jsonrpclistener");
  }

  lemma GrpcName()
    ensures Spells(BytesOf("grpclistener"), "grpclistener")
  {
    hide BytesOf, Spells;
    BytesOfSpells("grpclistener");
  }

  lemma CertName()
    ensures Spells(BytesOf("issuedclientcertificate"), "issuedclientcertificate")
  {
    hide BytesOf, Spells;
    BytesOfSpells("issuedclientcertificate");
  }

  /** The frame decodes to one message, with this name and this payload, before whatever follows. */
  ghost predicate Announces(frame: Bytes, name: string, payload: Bytes) {
    forall rest :: var r := Decode(frame + rest);
                   && r.Some? && r.value.1 == rest
                   && Spells(r.value.0.kind, name) && r.value.0.payload == payload
  }

  /** The reader of the pipe is told the kind of each event and the bytes it came with. */
  lemma EventsAreAnnounced(a: Bytes)
    requires |a| < TWO_TO_32
    ensures Announces(Encode(JsonrpcListenerEvent(a)), "jsonrpclistener", a)
    ensures Announces(Encode(GrpcListenerEvent(a)), "grpclistener", a)
    ensures Announces(Encode(IssuedClientCertEvent(a)), "issuedclientcertificate", a)
  {
    EventTypes(a, a, a);
    hide BytesOf, Encode, Decode, Spells;
    forall rest
      ensures Decode(Encode(JsonrpcListenerEvent(a)) + rest) == Some((JsonrpcListenerEvent(a), rest))
      ensures Decode(Encode(GrpcListenerEvent(a)) + rest) == Some((GrpcListenerEvent(a), rest))
      ensures Decode(Encode(IssuedClientCertEvent(a)) + rest) == Some((IssuedClientCertEvent(a), rest))
    {
      FrameRoundTrip(JsonrpcListenerEvent(a), rest);
      FrameRoundTrip(GrpcListenerEvent(a), rest);
      FrameRoundTrip(IssuedClientCertEvent(a), rest);
    }
  }

  predicate Spells(b: Bytes, s: string) {
    |b| == |s| && forall i :: 0 <= i < |s| ==> b[i] as int == s[i] as int
  }

  lemma {:induction false} BytesOfSpells(s: string)
    requires forall i :: 0 <= i < |s| ==> s[i] as int < 128
    ensures Spells(BytesOf(s), s)
  {
    if s != "" {
      BytesOfSpells(s[1..]);
    }
  }

  // ---------------------------------------------------------------- the sending loop

  /** A pipe that breaks after `room` more bytes. */
  class Pipe {
    var written: Bytes
    var room: nat

    method Write(b: Bytes) returns (ok: bool)
      modifies this
      ensures ok <==> |b| <= old(room)
      ensures written == old(written) + (if ok then b else b[..old(room)])
      ensures room == if ok then old(room) - |b| else 0
    {
      if |b| <= room {
        written, room, ok := written + b, room - |b|, true;
      } else {
        written, room, ok := written + b[..room], 0, false;
      }
    }
  }

  /** serviceControlPipeTx: one header buffer, reused; stops at the first failed write. */
  method Transmit(ms: seq<Message>, pipe: Pipe) returns (ok: bool)
    modifies pipe
    ensures ok <==> |EncodeAll(ms)| <= old(pipe.room)
    ensures pipe.written == old(pipe.written) + (if ok then EncodeAll(ms) else EncodeAll(ms)[..old(pipe.room)])
  {
    var headerBuffer: Bytes := [];
    ghost var stream := EncodeAll(ms);
    var i := 0;
    ok := true;
    assert ms[0..] == ms;
    SentNothing(stream, pipe.written, pipe.room);
    hide EncodeAll, Sent, Header, LittleEndian32, PayloadSize;
    while i < |ms|
      invariant i <= |ms| && ok && headerBuffer == []
      invariant Sent(stream, EncodeAll(ms[i..]), old(pipe.written), old(pipe.room), pipe.written, pipe.room)
    {
      var m := ms[i];
      ghost var rest := EncodeAll(ms[i + 1..]);
      EncodeNext(ms, i);
      HeaderParts(m);
      headerBuffer := headerBuffer + [PROTOCOL_VERSION];
      headerBuffer := headerBuffer + [LengthByte(|m.kind|)];
      headerBuffer := headerBuffer + m.kind;
      headerBuffer := headerBuffer + LittleEndian32(PayloadSize(m));
      ok := Send(pipe, headerBuffer, m.payload + rest, stream, old(pipe.written), old(pipe.room));
      if !ok {
        return;
      }
      ok := Send(pipe, m.payload, rest, stream, old(pipe.written), old(pipe.room));
      if !ok {
        return;
      }
      headerBuffer := headerBuffer[..0];
      i := i + 1;
    }
    SentAll(stream, old(pipe.written), old(pipe.room), ms[i..], pipe.written, pipe.room);
  }

  lemma EncodeNext(ms: seq<Message>, i: nat)
    requires i < |ms|
    ensures EncodeAll(ms[i..]) == Header(ms[i]) + (ms[i].payload + EncodeAll(ms[i + 1..]))
  {
    assert ms[i..][1..] == ms[i + 1..];
  }

  lemma HeaderParts(m: Message)
    ensures [] + [PROTOCOL_VERSION] + [LengthByte(|m.kind|)] + m.kind + LittleEndian32(PayloadSize(m)) == Header(m)
  {
  }

  lemma SentNothing(stream: Bytes, written: Bytes, room: nat)
    ensures Sent(stream, stream, written, room, written, room)
  {
  }

  lemma SentAll(stream: Bytes, written0: Bytes, room0: nat, ms: seq<Message>, written: Bytes, room: nat)
    requires Sent(stream, EncodeAll(ms), written0, room0, written, room) && ms == []
    ensures |stream| <= room0 && written == written0 + stream
  {
  }

  /** Of `stream`, all but `rest` has gone through the pipe that began with `written0` and `room0`. */
  ghost predicate Sent(stream: Bytes, rest: Bytes, written0: Bytes, room0: nat, written: Bytes, room: nat) {
    && |rest| <= |stream| && |stream| - |rest| == room0 - room
    && stream == stream[..|stream| - |rest|] + rest
    && written == written0 + stream[..|stream| - |rest|]
  }

  method Send(pipe: Pipe, b: Bytes, ghost rest: Bytes, ghost stream: Bytes, ghost written0: Bytes, ghost room0: nat)
    returns (ok: bool)
    requires Sent(stream, b + rest, written0, room0, pipe.written, pipe.room)
    modifies pipe
    ensures ok ==> Sent(stream, rest, written0, room0, pipe.written, pipe.room)
    ensures !ok ==> room0 < |stream| && pipe.written == written0 + stream[..room0]
  {
    hide Sent;
    SendStep(stream, b, rest, written0, room0, pipe.written, pipe.room);
    ok := pipe.Write(b);
  }

  /** Writing the next part, or as much of it as there is room for. */
  lemma SendStep(stream: Bytes, b: Bytes, rest: Bytes, written0: Bytes, room0: nat, written: Bytes, room: nat)
    requires Sent(stream, b + rest, written0, room0, written, room)
    ensures |b| <= room ==> Sent(stream, rest, written0, room0, written + b, room - |b|)
    ensures room < |b| ==> room0 < |stream| && written + b[..room] == written0 + stream[..room0]
  {
    var done := stream[..|stream| - |b + rest|];
    Associative(done, b, rest);
    if |b| <= room {
      TakeOfConcat(done + b, rest, |done + b|);
      assert rest[..0] == [] && done + b + [] == done + b;
      Associative(written0, done, b);
    } else {
      TakeOfConcat(done, b + rest, room0);
      TakeOfConcat(b, rest, room);
      Associative(written0, done, b[..room]);
    }
  }
}
