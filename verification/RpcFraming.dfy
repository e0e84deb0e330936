/** rpc.py: framing of messages and blocking reads over an arbitrarily fragmented byte stream. */
module RpcFraming {
  import opened Basics
  import opened Bytewise
  import opened BigEndian

  const FIELD_SIZE := 8
  const HEADER_SIZE := 16
  const MAX_BODY_SIZE := 0x1_0000_0000

  datatype Message = Message(id: nat, body: Option<Bytes>)

  /** What `int.to_bytes` accepts, and what the reader accepts. */
  predicate Sendable(m: Message) {
    m.id < Pow256(FIELD_SIZE) && (m.body.Some? ==> |m.body.value| <= MAX_BODY_SIZE)
  }

  function BodyBytes(m: Message): Bytes {
    if m.body.Some? then m.body.value else []
  }

  /** `_encode_message`. */
  function EncodeMessage(m: Message): Bytes {
    ToBytes(m.id, FIELD_SIZE) + ToBytes(|BodyBytes(m)|, FIELD_SIZE) + BodyBytes(m)
  }

  /** An empty body is read back as the sentinel. */
  function Received(m: Message): Message {
    if BodyBytes(m) == [] then Message(m.id, None) else m
  }

  datatype Header = Header(id: nat, size: nat) | NotRpc

  /** `_decode_header`. */
  function DecodeHeader(header: Bytes): Header
    requires |header| == HEADER_SIZE
  {
    var id, size := FromBytes(header[..FIELD_SIZE]), FromBytes(header[FIELD_SIZE..]);
    if size > MAX_BODY_SIZE then NotRpc else Header(id, size)
  }

  /** What one read finds at the front of a stream, fragmented or not. */
  datatype Parse = Incomplete(rest: Bytes) | TooLarge(rest: Bytes) | Parsed(message: Message, rest: Bytes)

  function ParseMessage(stream: Bytes): Parse {
    if |stream| < HEADER_SIZE then Incomplete(stream)
    else
      match DecodeHeader(stream[..HEADER_SIZE])
      case NotRpc => TooLarge(stream[HEADER_SIZE..])
      case Header(id, size) =>
        if size == 0 then Parsed(Message(id, None), stream[HEADER_SIZE..])
        else if |stream| < HEADER_SIZE + size then Incomplete(stream[HEADER_SIZE..])
        else Parsed(Message(id, Some(stream[HEADER_SIZE..HEADER_SIZE + size])), stream[HEADER_SIZE + size..])
  }

  /** A message is read back whatever follows it. */
  lemma ParseEncoded(m: Message, rest: Bytes)
    requires Sendable(m)
    ensures ParseMessage(EncodeMessage(m) + rest) == Parsed(Received(m), rest)
  {
    var b := BodyBytes(m);
    var id, size := ToBytes(m.id, FIELD_SIZE), ToBytes(|b|, FIELD_SIZE);
    var stream := EncodeMessage(m) + rest;
    Pow256Of8();
    ToFrom(m.id, FIELD_SIZE);
    ToFrom(|b|, FIELD_SIZE);
    assert stream == id + size + b + rest;
    assert stream[..HEADER_SIZE][..FIELD_SIZE] == id && stream[..HEADER_SIZE][FIELD_SIZE..] == size;
    assert stream[HEADER_SIZE..] == b + rest;
    if b == [] {
      assert b + rest == rest;
    } else {
      assert stream[HEADER_SIZE..HEADER_SIZE + |b|] == b && stream[HEADER_SIZE + |b|..] == rest;
    }
  }

  /**
   * The bytes on the wire: eight bytes of the call id and eight of the length, most significant first, and
   * the body.
   */
  lemma WireLayout(m: Message, i: nat)
    requires i < |EncodeMessage(m)|
    ensures |EncodeMessage(m)| == 16 + if m.body.Some? then |m.body.value| else 0
    ensures i < 8 ==> Pow256(7 - i) > 0 && EncodeMessage(m)[i] as nat == m.id / Pow256(7 - i) % 256
    ensures 8 <= i < 16 ==>
              var size := if m.body.Some? then |m.body.value| else 0;
              Pow256(15 - i) > 0 && EncodeMessage(m)[i] as nat == size / Pow256(15 - i) % 256
    ensures i >= 16 ==> m.body.Some? && EncodeMessage(m)[i] == m.body.value[i - 16]
  {
    if i < 8 {
      DigitAt(m.id, 8, i);
    } else if i < 16 {
      DigitAt(|BodyBytes(m)|, 8, i - 8);
    }
  }

  lemma HeaderIsEncoded(header: Bytes)
    requires |header| == HEADER_SIZE && DecodeHeader(header).Header?
    ensures var h := DecodeHeader(header);
            h.id < Pow256(FIELD_SIZE) && header == ToBytes(h.id, FIELD_SIZE) + ToBytes(h.size, FIELD_SIZE)
  {
    FromTo(header[..FIELD_SIZE]);
    FromTo(header[FIELD_SIZE..]);
    FromBytesFits(header[..FIELD_SIZE]);
    assert header == header[..FIELD_SIZE] + header[FIELD_SIZE..];
  }

  lemma ParsedParts(stream: Bytes, m: Message, rest: Bytes)
    requires ParseMessage(stream) == Parsed(m, rest)
    ensures Sendable(m) && m.body != Some([]) && stream == EncodeMessage(m) + rest
  {
    var header, size := stream[..HEADER_SIZE], DecodeHeader(stream[..HEADER_SIZE]).size;
    HeaderIsEncoded(header);
    BodyAndRest(stream, size, rest);
    assert DecodeHeader(header) == Header(m.id, |BodyBytes(m)|) && size <= MAX_BODY_SIZE;
    Regroup(header, BodyBytes(m), rest);
  }

  lemma BodyAndRest(stream: Bytes, size: nat, rest: Bytes)
    requires HEADER_SIZE + size <= |stream| && rest == stream[HEADER_SIZE + size..]
    ensures stream == stream[..HEADER_SIZE] + (stream[HEADER_SIZE..HEADER_SIZE + size] + rest)
  {
  }

  /** Nothing but an encoded message is read as one, so that the reader never makes one up. */
  lemma ParsedIsEncoded(stream: Bytes, m: Message, rest: Bytes)
    ensures ParseMessage(stream) == Parsed(m, rest) <==>
              stream == EncodeMessage(m) + rest && Sendable(m) && m.body != Some([])
  {
    if ParseMessage(stream) == Parsed(m, rest) { ParsedParts(stream, m, rest); }
    if stream == EncodeMessage(m) + rest && Sendable(m) && m.body != Some([]) { ParseEncoded(m, rest); }
  }

  /** The sender frames any body the length field can hold; the reader accepts exactly those up to the limit. */
  lemma ReadableIff(m: Message, rest: Bytes)
    requires m.id < Pow256(FIELD_SIZE) && |BodyBytes(m)| < Pow256(FIELD_SIZE)
    ensures ParseMessage(EncodeMessage(m) + rest).Parsed? <==> |BodyBytes(m)| <= MAX_BODY_SIZE
    ensures |BodyBytes(m)| > MAX_BODY_SIZE ==>
              ParseMessage(EncodeMessage(m) + rest) == TooLarge(BodyBytes(m) + rest)
  {
    var b := BodyBytes(m);
    if |b| <= MAX_BODY_SIZE {
      ParseEncoded(m, rest);
    } else {
      var id, size := ToBytes(m.id, FIELD_SIZE), ToBytes(|b|, FIELD_SIZE);
      var stream := EncodeMessage(m) + rest;
      ToFrom(|b|, FIELD_SIZE);
      assert stream == id + size + b + rest;
      assert stream[..HEADER_SIZE][FIELD_SIZE..] == size;
      assert stream[HEADER_SIZE..] == b + rest;
    }
  }

  function EncodeAll(ms: seq<Message>): Bytes {
    if ms == [] then [] else EncodeMessage(ms[0]) + EncodeAll(ms[1..])
  }

  /** `n` reads one after the other: the messages, and what is left, unless a read fails. */
  function ParseMany(stream: Bytes, n: nat): Option<(seq<Message>, Bytes)> {
    if n == 0 then Some(([], stream))
    else
      match ParseMessage(stream)
      case Parsed(m, rest) =>
        (match ParseMany(rest, n - 1)
         case Some(tail) => Some(([m] + tail.0, tail.1))
         case None => None)
      case _ => None
  }

  function ReceivedAll(ms: seq<Message>): seq<Message> {
    seq(|ms|, i requires 0 <= i < |ms| => Received(ms[i]))
  }

  lemma ReceivedCons(ms: seq<Message>)
    requires ms != []
    ensures ReceivedAll(ms) == [Received(ms[0])] + ReceivedAll(ms[1..])
  {
  }

  /** Repeated reads return exactly the list that was sent, and keep what follows it. */
  lemma {:induction false} ParseAllEncoded(ms: seq<Message>, rest: Bytes)
    requires forall i :: 0 <= i < |ms| ==> Sendable(ms[i])
    ensures ParseMany(EncodeAll(ms) + rest, |ms|) == Some((ReceivedAll(ms), rest))
  {
    if ms == [] {
      assert EncodeAll(ms) + rest == rest && ReceivedAll(ms) == [];
    } else {
      Regroup(EncodeMessage(ms[0]), EncodeAll(ms[1..]), rest);
      ParseEncoded(ms[0], EncodeAll(ms[1..]) + rest);
      ParseAllEncoded(ms[1..], rest);
      ReceivedCons(ms);
    }
  }

  // ---- The buffered reader ----

  function Join(fragments: seq<Bytes>): Bytes {
    if fragments == [] then [] else fragments[0] + Join(fragments[1..])
  }

  datatype Read = Data(bytes: Bytes) | ConnectionReset

  datatype Receipt = Received1(message: Message) | PeerGone | RPCError

  /** `_SocketReader`, with the fragments that successive calls of `recv` will return. */
  class SocketReader {
    var buffer: Bytes
    var incoming: seq<Bytes>

    constructor (incoming: seq<Bytes>)
      requires forall i :: 0 <= i < |incoming| ==> incoming[i] != []
      ensures Valid() && Remaining() == Join(incoming)
    {
      buffer, this.incoming := [], incoming;
    }

    /** The socket returns no bytes only when the peer is gone. */
    predicate Valid()
      reads this
    {
      forall i :: 0 <= i < |incoming| ==> incoming[i] != []
    }

    /** Every byte the peer has sent or will send that no read has consumed. */
    function Remaining(): Bytes
      reads this
    {
      buffer + Join(incoming)
    }

    method Recv() returns (fragment: Bytes)
      requires Valid()
      modifies `incoming
      ensures Valid()
      ensures if old(incoming) == [] then fragment == [] && incoming == []
              else fragment == old(incoming)[0] && incoming == old(incoming)[1..]
    {
      if incoming == [] {
        return [];
      }
      fragment, incoming := incoming[0], incoming[1..];
    }

    /** Never loses a byte: what is not returned stays, in order, for the following call. */
    method ReadExactly(size: nat) returns (r: Read)
      requires Valid()
      modifies this
      ensures Valid()
      ensures r.Data? <==> size <= |old(Remaining())|
      ensures r.Data? ==> r.bytes == old(Remaining())[..size] && Remaining() == old(Remaining())[size..]
      ensures r.ConnectionReset? ==> Remaining() == old(Remaining()) && incoming == []
    {
      ghost var all := Remaining();
      while |buffer| < size
        invariant Valid() && Remaining() == all
        decreases |incoming|
      {
        ghost var before := incoming;
        var fragment := Recv();
        if fragment == [] {
          return ConnectionReset;
        }
        Regroup(buffer, fragment, Join(incoming));
        buffer := buffer + fragment;
      }
      TakeDrop(buffer, Join(incoming), size);
      r := Data(buffer[..size]);
      buffer := buffer[size..];
    }

    /** `_recv_socket_message` depends on the remaining bytes only, not on how they are fragmented. */
    method RecvMessage() returns (r: Receipt)
      requires Valid()
      modifies this
      ensures Valid()
      ensures match ParseMessage(old(Remaining()))
              case Incomplete(rest) => r == PeerGone && Remaining() == rest
              case TooLarge(rest) => r == RPCError && Remaining() == rest
              case Parsed(m, rest) => r == Received1(m) && Remaining() == rest
    {
      ghost var stream := Remaining();
      var header := ReadExactly(HEADER_SIZE);
      if header.ConnectionReset? {
        return PeerGone;
      }
      match DecodeHeader(header.bytes) {
        case NotRpc =>
          r := RPCError;
        case Header(id, size) =>
          if size == 0 {
            r := Received1(Message(id, None));
          } else {
            var body := ReadExactly(size);
            if body.ConnectionReset? {
              return PeerGone;
            }
            assert stream[HEADER_SIZE..][..size] == stream[HEADER_SIZE..HEADER_SIZE + size];
            assert stream[HEADER_SIZE..][size..] == stream[HEADER_SIZE + size..];
            r := Received1(Message(id, Some(body.bytes)));
          }
      }
    }
  }

  /** What a list of reads has yielded so far, and what is left to be read. */
  predicate ReadSoFar(all: Bytes, n: nat, got: seq<Message>, rest: Bytes, left: nat) {
    match ParseMany(rest, left)
    case None => ParseMany(all, n) == None
    case Some(tail) => ParseMany(all, n) == Some((got + tail.0, tail.1))
  }

  lemma NothingRead(all: Bytes, n: nat)
    ensures ReadSoFar(all, n, [], all, n)
  {
    match ParseMany(all, n)
    case None =>
    case Some(tail) => assert [] + tail.0 == tail.0;
  }

  lemma ReadOneMore(all: Bytes, n: nat, got: seq<Message>, stream: Bytes, left: nat, m: Message, rest: Bytes)
    requires left > 0 && ReadSoFar(all, n, got, stream, left) && ParseMessage(stream) == Parsed(m, rest)
    ensures ReadSoFar(all, n, got + [m], rest, left - 1)
  {
    match ParseMany(rest, left - 1)
    case None =>
    case Some(tail) => Regroup(got, [m], tail.0);
  }

  /** Successive blocking reads, which end at the first that fails. */
  method RecvMessages(reader: SocketReader, n: nat) returns (got: seq<Message>, ok: bool)
    requires reader.Valid()
    modifies reader
    ensures reader.Valid() && ok == ParseMany(old(reader.Remaining()), n).Some?
    ensures ok ==> ParseMany(old(reader.Remaining()), n) == Some((got, reader.Remaining()))
  {
    got := [];
    ghost var all := reader.Remaining();
    NothingRead(all, n);
    for i := 0 to n
      invariant reader.Valid() && ReadSoFar(all, n, got, reader.Remaining(), n - i)
    {
      ghost var stream := reader.Remaining();
      var receipt := reader.RecvMessage();
      if !receipt.Received1? {
        return got, false;
      }
      ReadOneMore(all, n, got, stream, n - i, receipt.message, reader.Remaining());
      got := got + [receipt.message];
    }
    assert got + [] == got;
    ok := true;
  }

  /** Over any fragmentation, the list that was sent is read, and what follows it is kept. */
  method RecvSent(reader: SocketReader, ghost sent: seq<Message>, ghost rest: Bytes, n: nat) returns (got: seq<Message>)
    requires reader.Valid() && n == |sent| && reader.Remaining() == EncodeAll(sent) + rest
    requires forall i :: 0 <= i < |sent| ==> Sendable(sent[i])
    modifies reader
    ensures reader.Valid() && got == ReceivedAll(sent) && reader.Remaining() == rest
  {
    ParseAllEncoded(sent, rest);
    var ok;
    got, ok := RecvMessages(reader, n);
  }

  lemma TakeDrop(a: Bytes, b: Bytes, n: nat)
    requires n <= |a|
    ensures (a + b)[..n] == a[..n] && (a + b)[n..] == a[n..] + b
  {
  }
}
