/** The wire form of payloads and acknowledgements. */
module Messages {
  import opened Basics
  import opened Words

  datatype Error = NoSessionId | NoSequence | WrongNumberOfBytes

  const MIN_HEADER_KEY := 2000
  const MAX_HEADER_KEY := 2255
  const HEADER_KEY_SESSION_ID := 2256
  const HEADER_KEY_SEQUENCE := 2257
  const HEADER_KEY_FLAGS := 2258
  const HEADER_KEY_RECV_BUFFER_SIZE := 2259
  const HEADER_KEY_RTT := 2260

  const CONTENT_TYPE_PAYLOAD := 1100
  const CONTENT_TYPE_ACKNOWLEDGEMENT := 1101

  datatype Header = Header(sessionId: seq<byte>, flags: uint32, recvBufferSize: uint32, rtt: uint16)

  datatype Acknowledgement = Acknowledgement(header: Header, sequence: seq<int32>)

  /** `headers` is None where the program has a nil map. */
  datatype Payload = Payload(header: Header, sequence: int32, headers: Option<map<byte, seq<byte>>>, data: seq<byte>)

  datatype Message = Message(contentType: int, headers: map<int, seq<byte>>, body: seq<byte>)

  // ----- integers as bytes -----

  /** The low `width` bytes of `x`, most significant first. */
  function Encode(x: int, width: nat): (r: seq<byte>)
    ensures |r| == width
    decreases width
  {
    if width == 0 then [] else Encode(x / 256, width - 1) + [x % 256]
  }

  function Decode(bytes: seq<byte>): (x: nat) {
    if bytes == [] then 0 else 256 * Decode(bytes[..|bytes| - 1]) + bytes[|bytes| - 1]
  }

  function Power256(width: nat): (r: nat)
    ensures r > 0
  {
    if width == 0 then 1 else 256 * Power256(width - 1)
  }

  lemma {:induction false} EncodeDecode(x: int, width: nat)
    requires 0 <= x < Power256(width)
    ensures Decode(Encode(x, width)) == x
  {
    if width > 0 {
      EncodeDecode(x / 256, width - 1);
      assert Encode(x, width)[..width - 1] == Encode(x / 256, width - 1);
    }
  }

  lemma {:induction false} DecodeEncode(bytes: seq<byte>)
    ensures Encode(Decode(bytes), |bytes|) == bytes
    ensures Decode(bytes) < Power256(|bytes|)
  {
    if bytes != [] {
      var front, last := bytes[..|bytes| - 1], bytes[|bytes| - 1];
      DecodeEncode(front);
      assert Decode(bytes) / 256 == Decode(front) && Decode(bytes) % 256 == last;
      assert bytes == front + [last];
    }
  }

  lemma Widths()
    ensures Power256(2) == TWO_16 && Power256(4) == TWO_32 && Power256(8) == TWO_64
  {
    assert Power256(1) == 256 * Power256(0);
    assert Power256(2) == 256 * Power256(1);
    assert Power256(3) == 256 * Power256(2);
    assert Power256(4) == 256 * Power256(3);
    assert Power256(5) == 256 * Power256(4);
    assert Power256(6) == 256 * Power256(5);
    assert Power256(7) == 256 * Power256(6);
  }

  /** The same bytes in the other order, least significant first, as the message library has them. */
  function EncodeLow(x: int, width: nat): (r: seq<byte>)
    ensures |r| == width
    decreases width
  {
    if width == 0 then [] else [x % 256] + EncodeLow(x / 256, width - 1)
  }

  function DecodeLow(bytes: seq<byte>): (x: nat) {
    if bytes == [] then 0 else bytes[0] + 256 * DecodeLow(bytes[1..])
  }

  lemma {:induction false} EncodeDecodeLow(x: int, width: nat)
    requires 0 <= x < Power256(width)
    ensures DecodeLow(EncodeLow(x, width)) == x
  {
    if width > 0 {
      EncodeDecodeLow(x / 256, width - 1);
      assert EncodeLow(x, width)[1..] == EncodeLow(x / 256, width - 1);
    }
  }

  /** Four bytes, most significant first, written out. */
  lemma Positions(b: seq<byte>)
    requires |b| == 4
    ensures Decode(b) == ((b[0] as int * 0x100 + b[1]) * 0x100 + b[2]) * 0x100 + b[3]
  {
    assert b[..3][..2] == b[..2] && b[..2][..1] == b[..1] && b[..1][..0] == [];
    assert Decode(b[..1]) == b[0];
    assert Decode(b[..2]) == 256 * Decode(b[..1]) + b[1];
    assert Decode(b[..3]) == 256 * Decode(b[..2]) + b[2];
  }

  lemma LowSplit(b: seq<byte>)
    requires |b| >= 2
    ensures DecodeLow(b) == b[0] + 0x100 * (b[1] + 0x100 * DecodeLow(b[2..]))
  {
    assert b[1..][1..] == b[2..];
    assert DecodeLow(b[1..]) == b[1] + 256 * DecodeLow(b[2..]);
  }

  /** Two, four and eight bytes, least significant first, written out. */
  lemma LowPositions(b: seq<byte>)
    ensures |b| == 2 ==> DecodeLow(b) == b[0] + 0x100 * b[1] as int
    ensures |b| == 4 ==> DecodeLow(b) == b[0] + 0x100 * (b[1] + 0x100 * (b[2] + 0x100 * b[3] as int))
    ensures |b| == 8 ==> DecodeLow(b) ==
                         b[0] + 0x100 * (b[1] + 0x100 * (b[2] + 0x100 * (b[3] + 0x100 *
                         (b[4] + 0x100 * (b[5] + 0x100 * (b[6] + 0x100 * b[7] as int))))))
  {
    if |b| == 2 {
      LowSplit(b);
    } else if |b| == 4 {
      LowSplit(b);
      LowSplit(b[2..]);
    } else if |b| == 8 {
      LowSplit(b);
      LowSplit(b[2..]);
      LowSplit(b[2..][2..]);
      LowSplit(b[2..][2..][2..]);
    }
  }

  /** `int32(x)` of an unsigned integer of 32 bits or more. */
  function Signed32(x: nat): (r: int32)
    ensures (x - r) % 0x1_0000_0000 == 0
  {
    var low := Low32(x);
    if low < TWO_31 then low else low - TWO_32
  }

  /** `uint64(x)` of a signed integer: sign extension. */
  function Low64(x: int): uint64 {
    x % TWO_64
  }

  lemma SignedSurvives(x: int32)
    ensures Signed32(Low32(x)) == x
    ensures Signed32(Low64(x)) == x
  {
    if x < 0 {
      assert Low64(x) == x + TWO_64;
      Low32Shift(x, TWO_32);
    }
  }

  // ----- the sequences of an acknowledgement -----

  function SequenceBytes(sequence: seq<int32>): (r: seq<byte>)
    ensures |r| == 4 * |sequence|
  {
    if sequence == [] then []
    else SequenceBytes(sequence[..|sequence| - 1]) + Encode(Low32(sequence[|sequence| - 1]), 4)
  }

  lemma SequenceBytesAppend(sequence: seq<int32>, x: int32)
    ensures SequenceBytes(sequence + [x]) == SequenceBytes(sequence) + Encode(Low32(x), 4)
  {
    assert (sequence + [x])[..|sequence|] == sequence;
  }

  /** The four bytes of `bytes` from `at` on are those of the number. */
  ghost predicate HasWord(bytes: seq<byte>, at: nat, x: uint32) {
    at + 4 <= |bytes| && bytes[at..at + 4] == Encode(x, 4)
  }

  lemma WordStays(front: seq<byte>, more: seq<byte>, at: nat, x: uint32)
    requires HasWord(front, at, x)
    ensures HasWord(front + more, at, x)
  {
    assert (front + more)[at..at + 4] == front[at..at + 4];
  }

  lemma WordAdded(front: seq<byte>, word: seq<byte>, x: uint32)
    requires word == Encode(x, 4)
    ensures HasWord(front + word, |front|, x)
  {
    assert (front + word)[|front|..|front| + 4] == word;
  }

  lemma {:induction false} SequenceBytesAt(sequence: seq<int32>, i: nat)
    requires i < |sequence|
    ensures HasWord(SequenceBytes(sequence), 4 * i, Low32(sequence[i]))
  {
    hide Encode;
    var rest, last := sequence[..|sequence| - 1], sequence[|sequence| - 1];
    assert sequence == rest + [last];
    SequenceBytesAppend(rest, last);
    var front, word := SequenceBytes(rest), Encode(Low32(last), 4);
    if i < |rest| {
      SequenceBytesAt(rest, i);
      WordStays(front, word, 4 * i, Low32(sequence[i]));
    } else {
      WordAdded(front, word, Low32(last));
    }
  }

  lemma SameWord(buf: seq<byte>, bytes: seq<byte>, at: nat, x: uint32)
    requires HasWord(buf, at, x) && HasWord(bytes, at, x) && |buf| == |bytes| && buf[..at] == bytes[..at]
    ensures buf[..at + 4] == bytes[..at + 4]
  {
    assert buf[..at + 4] == buf[..at] + buf[at..at + 4];
    assert bytes[..at + 4] == bytes[..at] + bytes[at..at + 4];
  }

  /** Word by word the bytes are those of the sequences, most significant first. */
  lemma SequencePositions(sequence: seq<int32>, i: nat)
    requires i < |sequence|
    ensures var b := SequenceBytes(sequence);
            ((b[4 * i] as int * 0x100 + b[4 * i + 1]) * 0x100 + b[4 * i + 2]) * 0x100 + b[4 * i + 3] == Low32(sequence[i])
  {
    hide Encode, Decode, SequenceBytes;
    SequenceBytesAt(sequence, i);
    WordPositions(SequenceBytes(sequence), 4 * i, Low32(sequence[i]), 4);
  }

  lemma WordPositions(b: seq<byte>, at: nat, x: uint32, width: nat)
    requires width == 4 && at + width <= |b| && b[at..at + width] == Encode(x, width)
    ensures ((b[at] as int * 0x100 + b[at + 1]) * 0x100 + b[at + 2]) * 0x100 + b[at + 3] == x
  {
    hide Encode, Decode;
    Widths();
    EncodeDecode(x, width);
    Positions(b[at..at + width]);
  }

  method MarshallSequence(sequence: seq<int32>) returns (body: seq<byte>)
    ensures body == SequenceBytes(sequence) && |body| == 4 * |sequence|
    ensures forall i :: 0 <= i < |sequence| ==>
              ((body[4 * i] as int * 0x100 + body[4 * i + 1]) * 0x100 + body[4 * i + 2]) * 0x100 + body[4 * i + 3] ==
              Low32(sequence[i])
  {
    hide Encode, SequenceBytes;
    if |sequence| == 0 {
      return [];
    }
    var buf := new byte[4 * |sequence|];
    for i := 0 to |sequence|
      invariant buf[..4 * i] == SequenceBytes(sequence)[..4 * i]
    {
      PutUint32(buf, 4 * i, Low32(sequence[i]));
      SequenceBytesAt(sequence, i);
      SameWord(buf[..], SequenceBytes(sequence), 4 * i, Low32(sequence[i]));
    }
    body := buf[..];
    forall i | 0 <= i < |sequence|
      ensures ((body[4 * i] as int * 0x100 + body[4 * i + 1]) * 0x100 + body[4 * i + 2]) * 0x100 + body[4 * i + 3] ==
              Low32(sequence[i])
    {
      SequencePositions(sequence, i);
    }
  }

  /** `binary.BigEndian.PutUint32` */
  method PutUint32(buf: array<byte>, at: nat, x: uint32)
    requires at + 4 <= buf.Length
    modifies buf
    ensures HasWord(buf[..], at, x)
    ensures buf[..at] == old(buf[..at]) && buf[at + 4..] == old(buf[at + 4..])
  {
    var bytes := Encode(x, 4);
    for k := 0 to 4
      invariant buf[at..at + k] == bytes[..k]
      invariant buf[..at] == old(buf[..at]) && buf[at + 4..] == old(buf[at + 4..])
    {
      buf[at + k] := bytes[k];
    }
  }

  lemma TakeMore(data: seq<byte>, i: nat, j: nat)
    requires i <= j <= |data|
    ensures data[..j] == data[..i] + data[i..j]
  {
  }

  lemma LowSigned(x: uint32)
    ensures Low32(Signed32(x)) == x
  {
    if x >= TWO_31 {
      Low32Shift(x - TWO_32, 1);
    }
  }

  lemma EncodeOf(x: nat, bytes: seq<byte>, width: nat)
    requires |bytes| == width && x == Decode(bytes)
    ensures Encode(x, width) == bytes
  {
    DecodeEncode(bytes);
  }

  lemma WordValue(word: seq<byte>, width: nat)
    requires |word| == width && Power256(width) == TWO_32
    ensures Decode(word) < TWO_32
  {
    DecodeEncode(word);
  }

  lemma OneMoreWord(sequence: seq<int32>, word: seq<byte>)
    requires |word| == 4
    ensures SequenceBytes(sequence + [Signed32(Decode(word))]) == SequenceBytes(sequence) + word
  {
    var x := Signed32(Decode(word));
    Widths();
    WordValue(word, 4);
    LowSigned(Decode(word));
    SequenceBytesAppend(sequence, x);
    EncodeOf(Low32(x), word, 4);
  }

  /** Reads back exactly the list whose bytes these are; only a length that is no multiple of four
      is an error. */
  method UnmarshallSequence(data: seq<byte>) returns (r: Result<seq<int32>, Error>)
    ensures r.Ok? <==> |data| % 4 == 0
    ensures r.Ok? ==> SequenceBytes(r.value) == data && |data| == 4 * |r.value|
    ensures r.Ok? ==> forall i :: 0 <= i < |r.value| ==>
              ((data[4 * i] as int * 0x100 + data[4 * i + 1]) * 0x100 + data[4 * i + 2]) * 0x100 + data[4 * i + 3] ==
              Low32(r.value[i])
  {
    if |data| == 0 {
      return Ok([]);
    }
    if |data| % 4 != 0 {
      return Err(WrongNumberOfBytes);
    }
    var sequence: seq<int32> := [];
    for i := 0 to |data| / 4
      invariant |sequence| == i && SequenceBytes(sequence) == data[..4 * i]
    {
      var word := data[4 * i..4 * i + 4];
      var x := Signed32(Decode(word));
      OneMoreWord(sequence, word);
      TakeMore(data, 4 * i, 4 * i + 4);
      sequence := sequence + [x];
    }
    assert data[..4 * (|data| / 4)] == data;
    forall i | 0 <= i < |sequence|
      ensures ((data[4 * i] as int * 0x100 + data[4 * i + 1]) * 0x100 + data[4 * i + 2]) * 0x100 + data[4 * i + 3] ==
              Low32(sequence[i])
    {
      SequencePositions(sequence, i);
    }
    return Ok(sequence);
  }

  /** The bytes determine the list, so unmarshalling what was marshalled restores it. */
  lemma SequenceBytesInjective(a: seq<int32>, b: seq<int32>)
    requires SequenceBytes(a) == SequenceBytes(b)
    ensures a == b
  {
    assert 4 * |a| == |SequenceBytes(a)| == |SequenceBytes(b)| == 4 * |b|;
    forall i | 0 <= i < |a| ensures a[i] == b[i] {
      SameAt(a, b, i);
    }
  }

  lemma SameAt(a: seq<int32>, b: seq<int32>, i: nat)
    requires SequenceBytes(a) == SequenceBytes(b) && i < |a| == |b|
    ensures a[i] == b[i]
  {
    SequenceBytesAt(a, i);
    SequenceBytesAt(b, i);
    EncodeInjective(a[i], b[i]);
  }

  lemma EncodeInjective(x: int32, y: int32)
    requires Encode(Low32(x), 4) == Encode(Low32(y), 4)
    ensures x == y
  {
    Widths();
    EncodeDecode(Low32(x), 4);
    EncodeDecode(Low32(y), 4);
    SignedSurvives(x);
    SignedSurvives(y);
  }

  method SequenceRoundTrip(sequence: seq<int32>) returns (r: Result<seq<int32>, Error>)
    ensures r == Ok(sequence)
  {
    var body := MarshallSequence(sequence);
    r := UnmarshallSequence(body);
    SequenceBytesInjective(r.value, sequence);
  }

  // ----- headers -----

  /** A header of fixed width, least significant byte first; an entry of another length does not count as present. */
  function GetHeader(headers: map<int, seq<byte>>, key: int, width: nat): Option<nat> {
    if key in headers && |headers[key]| == width then Some(DecodeLow(headers[key])) else None
  }

  /** Flags and round trip time are only put when they are not zero. */
  function MarshallHeader(h: Header, headers: map<int, seq<byte>>): (r: map<int, seq<byte>>) {
    var r1 := headers[HEADER_KEY_SESSION_ID := h.sessionId];
    var r2 := if h.flags != 0 then r1[HEADER_KEY_FLAGS := EncodeLow(h.flags, 4)] else r1;
    var r3 := r2[HEADER_KEY_RECV_BUFFER_SIZE := EncodeLow(h.recvBufferSize, 4)];
    if h.rtt > 0 then r3[HEADER_KEY_RTT := EncodeLow(h.rtt, 2)] else r3
  }

  function OrElse(x: Option<nat>, default: nat): nat {
    if x.Some? then x.value else default
  }

  function UnmarshallHeader(headers: map<int, seq<byte>>): (r: Result<Header, Error>) {
    if HEADER_KEY_SESSION_ID !in headers then Err(NoSessionId)
    else
      Ok(Header(headers[HEADER_KEY_SESSION_ID],
                Low32(OrElse(GetHeader(headers, HEADER_KEY_FLAGS, 4), 0)),
                Low32(OrElse(GetHeader(headers, HEADER_KEY_RECV_BUFFER_SIZE, 4), TWO_32 - 1)),
                Low16(OrElse(GetHeader(headers, HEADER_KEY_RTT, 2), 0))))
  }

  /** The entry is there, with this width, and stands for this number. */
  ghost predicate Holds(headers: map<int, seq<byte>>, key: int, x: nat, width: nat) {
    key in headers && |headers[key]| == width && DecodeLow(headers[key]) == x
  }

  /** The entries of a header: flags and round trip time are only there when they are not zero. */
  ghost predicate HoldsHeader(headers: map<int, seq<byte>>, h: Header) {
    && HEADER_KEY_SESSION_ID in headers && headers[HEADER_KEY_SESSION_ID] == h.sessionId
    && Holds(headers, HEADER_KEY_RECV_BUFFER_SIZE, h.recvBufferSize, 4)
    && (if h.flags == 0 then HEADER_KEY_FLAGS !in headers else Holds(headers, HEADER_KEY_FLAGS, h.flags, 4))
    && (if h.rtt == 0 then HEADER_KEY_RTT !in headers else Holds(headers, HEADER_KEY_RTT, h.rtt, 2))
  }

  /** The bytes of such an entry, least significant first. */
  lemma EntryBytes(headers: map<int, seq<byte>>, key: int, x: nat, width: nat)
    requires Holds(headers, key, x, width)
    ensures var b := headers[key];
            && |b| == width
            && (width == 2 ==> b[0] + 0x100 * b[1] as int == x)
            && (width == 4 ==> b[0] + 0x100 * (b[1] + 0x100 * (b[2] + 0x100 * b[3] as int)) == x)
            && (width == 8 ==> b[0] + 0x100 * (b[1] + 0x100 * (b[2] + 0x100 * (b[3] + 0x100 *
                               (b[4] + 0x100 * (b[5] + 0x100 * (b[6] + 0x100 * b[7] as int)))))) == x)
  {
    LowPositions(headers[key]);
  }

  /** An entry that is missing reads as no flags, an unlimited buffer, and no round trip time. */
  lemma MissingEntries(headers: map<int, seq<byte>>)
    requires HEADER_KEY_SESSION_ID in headers
    ensures UnmarshallHeader(headers).Ok?
    ensures var h := UnmarshallHeader(headers).value;
            && h.sessionId == headers[HEADER_KEY_SESSION_ID]
            && (HEADER_KEY_FLAGS !in headers ==> h.flags == 0)
            && (HEADER_KEY_RECV_BUFFER_SIZE !in headers ==> h.recvBufferSize == 0xFFFF_FFFF)
            && (HEADER_KEY_RTT !in headers ==> h.rtt == 0)
  {
  }

  /** What `MarshallHeader` puts, it puts beside what was there. */
  lemma HeaderEntries(h: Header, headers: map<int, seq<byte>>)
    requires forall k :: k in headers ==> k <= MAX_HEADER_KEY
    ensures HoldsHeader(MarshallHeader(h, headers), h)
    ensures var r := MarshallHeader(h, headers);
            && 2256 in r && r[2256] == h.sessionId
            && (2258 in r <==> h.flags != 0) && (h.flags != 0 ==> Holds(r, 2258, h.flags, 4))
            && Holds(r, 2259, h.recvBufferSize, 4)
            && (2260 in r <==> h.rtt != 0) && (h.rtt != 0 ==> Holds(r, 2260, h.rtt, 2))
    ensures var r := MarshallHeader(h, headers);
            && HEADER_KEY_SEQUENCE !in r
            && forall k :: k <= MAX_HEADER_KEY ==> (k in r <==> k in headers) && (k in r ==> r[k] == headers[k])
  {
    Widths();
    EncodeDecodeLow(h.flags, 4);
    EncodeDecodeLow(h.recvBufferSize, 4);
    EncodeDecodeLow(h.rtt, 2);
  }

  /** A header is read back from any message that holds its entries. */
  lemma HeaderRoundTrip(h: Header, r: map<int, seq<byte>>)
    requires HoldsHeader(r, h)
    ensures UnmarshallHeader(r) == Ok(h)
  {
    assert h.rtt != 0 ==> Low16(h.rtt) == h.rtt;
  }

  // ----- acknowledgements -----

  method MarshallAcknowledgement(ack: Acknowledgement) returns (msg: Message)
    ensures msg == Message(CONTENT_TYPE_ACKNOWLEDGEMENT, MarshallHeader(ack.header, map[]),
                           SequenceBytes(ack.sequence))
    ensures msg.contentType == 1101 && HoldsHeader(msg.headers, ack.header)
  {
    HeaderEntries(ack.header, map[]);
    var body := MarshallSequence(ack.sequence);
    msg := Message(CONTENT_TYPE_ACKNOWLEDGEMENT, MarshallHeader(ack.header, map[]), body);
  }

  method UnmarshallAcknowledgement(msg: Message) returns (r: Result<Acknowledgement, Error>)
    ensures r.Ok? <==> HEADER_KEY_SESSION_ID in msg.headers && |msg.body| % 4 == 0
    ensures r.Ok? ==> UnmarshallHeader(msg.headers) == Ok(r.value.header) && SequenceBytes(r.value.sequence) == msg.body
  {
    var header := UnmarshallHeader(msg.headers);
    if header.Err? {
      return Err(header.error);
    }
    var sequence := UnmarshallSequence(msg.body);
    if sequence.Err? {
      return Err(sequence.error);
    }
    return Ok(Acknowledgement(header.value, sequence.value));
  }

  /** An acknowledgement is read back from any message that holds its entries and bytes. */
  method ReadAckBack(msg: Message, h: Header, sequence: seq<int32>) returns (r: Result<Acknowledgement, Error>)
    requires HoldsHeader(msg.headers, h) && msg.body == SequenceBytes(sequence)
    ensures r == Ok(Acknowledgement(h, sequence))
  {
    hide Holds, UnmarshallHeader, SequenceBytes;
    HeaderRoundTrip(h, msg.headers);
    r := UnmarshallAcknowledgement(msg);
    SequenceBytesInjective(r.value.sequence, sequence);
  }

  /** An acknowledgement comes back unchanged, whatever the number and the signs of its sequences. */
  method AcknowledgementRoundTrip(ack: Acknowledgement) returns (r: Result<Acknowledgement, Error>)
    ensures r == Ok(ack)
  {
    var msg := MarshallAcknowledgement(ack);
    r := ReadAckBack(msg, ack.header, ack.sequence);
  }

  // ----- payloads -----

  predicate IsUserKey(headers: map<byte, seq<byte>>, key: int) {
    MIN_HEADER_KEY <= key <= MAX_HEADER_KEY && key - MIN_HEADER_KEY in headers
  }

  function UserHeaders(headers: map<byte, seq<byte>>): map<int, seq<byte>> {
    map key | MIN_HEADER_KEY <= key <= MAX_HEADER_KEY && IsUserKey(headers, key) :: headers[key - MIN_HEADER_KEY]
  }

  function OrEmpty(headers: Option<map<byte, seq<byte>>>): map<byte, seq<byte>> {
    if headers.Some? then headers.value else map[]
  }

  method PutUserHeaders(user: map<byte, seq<byte>>) returns (headers: map<int, seq<byte>>)
    ensures headers == UserHeaders(user)
  {
    headers := map[];
    var keys := user.Keys;
    while keys != {}
      invariant keys <= user.Keys
      invariant forall k: byte :: k in user && k !in keys ==> MIN_HEADER_KEY + k in headers
      invariant forall k :: k in headers ==> IsUserKey(user, k) && headers[k] == user[k - MIN_HEADER_KEY]
      decreases |keys|
    {
      var key: byte :| key in keys;
      headers := headers[MIN_HEADER_KEY + key := user[key]];
      keys := keys - {key};
    }
  }

  /** `now` is the low half of the clock, which replaces the round trip time. */
  method MarshallPayload(payload: Payload, now: uint16) returns (msg: Message)
    ensures msg == Message(CONTENT_TYPE_PAYLOAD,
                           MarshallHeader(payload.header.(rtt := now), UserHeaders(OrEmpty(payload.headers)))
                             [HEADER_KEY_SEQUENCE := EncodeLow(Low64(payload.sequence), 8)],
                           payload.data)
    ensures msg.contentType == 1100 && Holds(msg.headers, 2257, payload.sequence % 0x1_0000_0000_0000_0000, 8)
    ensures HoldsHeader(msg.headers, payload.header.(rtt := now)) && HoldsUser(msg.headers, OrEmpty(payload.headers))
  {
    hide EncodeLow, DecodeLow, MarshallHeader, HoldsHeader, HoldsUser;
    var headers: map<int, seq<byte>> := map[];
    if payload.headers.Some? {
      headers := PutUserHeaders(payload.headers.value);
    }
    assert headers == UserHeaders(OrEmpty(payload.headers));
    headers := MarshallHeader(payload.header.(rtt := now), headers);
    msg := Message(CONTENT_TYPE_PAYLOAD, headers[HEADER_KEY_SEQUENCE := EncodeLow(Low64(payload.sequence), 8)],
                   payload.data);
    PayloadEntries(payload.header.(rtt := now), OrEmpty(payload.headers), payload.sequence);
  }

  /** The user's headers among the entries that have been looked at. */
  ghost predicate Gathered(headers: Option<map<byte, seq<byte>>>, entries: map<int, seq<byte>>, left: set<int>) {
    && (headers.Some? ==> headers.value != map[])
    && (forall k: byte :: k in OrEmpty(headers) <==> MIN_HEADER_KEY + k in entries && MIN_HEADER_KEY + k !in left)
    && (forall k: byte :: k in OrEmpty(headers) ==> OrEmpty(headers)[k] == entries[MIN_HEADER_KEY + k])
  }

  lemma GatherOne(headers: Option<map<byte, seq<byte>>>, entries: map<int, seq<byte>>, left: set<int>, key: int)
    requires Gathered(headers, entries, left) && key in left && key in entries
    ensures MIN_HEADER_KEY <= key <= MAX_HEADER_KEY ==>
              Gathered(Some(OrEmpty(headers)[key - MIN_HEADER_KEY := entries[key]]), entries, left - {key})
    ensures !(MIN_HEADER_KEY <= key <= MAX_HEADER_KEY) ==> Gathered(headers, entries, left - {key})
  {
    if MIN_HEADER_KEY <= key <= MAX_HEADER_KEY {
      var k: byte := key - MIN_HEADER_KEY;
      var after := OrEmpty(headers)[k := entries[key]];
      assert k in after;
    }
  }

  /** Walks over all entries of the message, in any order, and keeps those in the user's range. */
  method UnmarshallPayload(msg: Message) returns (r: Result<Payload, Error>)
    ensures r.Ok? <==> HEADER_KEY_SESSION_ID in msg.headers && GetHeader(msg.headers, HEADER_KEY_SEQUENCE, 8).Some?
    ensures r.Ok? ==>
              && UnmarshallHeader(msg.headers) == Ok(r.value.header)
              && r.value.data == msg.body
              && r.value.sequence == Signed32(GetHeader(msg.headers, HEADER_KEY_SEQUENCE, 8).value)
              && (r.value.headers.Some? ==> r.value.headers.value != map[])
              && (forall k: byte :: k in OrEmpty(r.value.headers) <==> MIN_HEADER_KEY + k in msg.headers)
              && (forall k: byte :: k in OrEmpty(r.value.headers) ==>
                    OrEmpty(r.value.headers)[k] == msg.headers[MIN_HEADER_KEY + k])
  {
    var headers: Option<map<byte, seq<byte>>> := None;
    var keys := msg.headers.Keys;
    while keys != {}
      invariant keys <= msg.headers.Keys
      invariant Gathered(headers, msg.headers, keys)
      decreases |keys|
    {
      ghost var any := AnyOf(keys);
      var key :| key in keys;
      GatherOne(headers, msg.headers, keys, key);
      if MIN_HEADER_KEY <= key <= MAX_HEADER_KEY {
        if headers.None? {
          headers := Some(map[]);
        }
        var xgressHeaderKey: byte := key - MIN_HEADER_KEY;
        headers := Some(headers.value[xgressHeaderKey := msg.headers[key]]);
      }
      keys := keys - {key};
    }
    var header := UnmarshallHeader(msg.headers);
    if header.Err? {
      return Err(header.error);
    }
    var sequence := GetHeader(msg.headers, HEADER_KEY_SEQUENCE, 8);
    if sequence.None? {
      return Err(NoSequence);
    }
    return Ok(Payload(header.value, Signed32(sequence.value), headers, msg.body));
  }

  /** An empty map of user headers is read back as nil. */
  function Normal(headers: Option<map<byte, seq<byte>>>): Option<map<byte, seq<byte>>> {
    if headers == Some(map[]) then None else headers
  }

  /** The user's headers are exactly these. */
  ghost predicate HoldsUser(headers: map<int, seq<byte>>, user: map<byte, seq<byte>>) {
    forall k: byte ::
      (k in user <==> MIN_HEADER_KEY + k in headers) && (k in user ==> headers[MIN_HEADER_KEY + k] == user[k])
  }

  /** A payload is read back from any message that holds its entries. */
  method ReadBack(msg: Message, h: Header, user: map<byte, seq<byte>>, sequence: int32) returns (r: Result<Payload, Error>)
    requires HoldsHeader(msg.headers, h) && HoldsUser(msg.headers, user)
    requires Holds(msg.headers, HEADER_KEY_SEQUENCE, Low64(sequence), 8)
    ensures r == Ok(Payload(h, sequence, if user == map[] then None else Some(user), msg.body))
  {
    HeaderRoundTrip(h, msg.headers);
    SignedSurvives(sequence);
    r := UnmarshallPayload(msg);
    assert OrEmpty(r.value.headers).Keys == user.Keys;
    assert OrEmpty(r.value.headers) == user;
  }

  /** A payload comes back with its flags, sequence, data and user headers intact, and with the time
      of sending in its header. */
  method PayloadRoundTrip(payload: Payload, now: uint16) returns (r: Result<Payload, Error>)
    ensures r == Ok(payload.(header := payload.header.(rtt := now), headers := Normal(payload.headers)))
  {
    var msg := MarshallPayload(payload, now);
    r := ReadBack(msg, payload.header.(rtt := now), OrEmpty(payload.headers), payload.sequence);
  }

  /** The header, the sequence and the user's headers share a message, and none disturbs the others. */
  lemma PayloadEntries(h: Header, user: map<byte, seq<byte>>, sequence: int32)
    ensures var r := MarshallHeader(h, UserHeaders(user))[HEADER_KEY_SEQUENCE := EncodeLow(Low64(sequence), 8)];
            HoldsHeader(r, h) && HoldsUser(r, user) && Holds(r, HEADER_KEY_SEQUENCE, Low64(sequence), 8)
  {
    Widths();
    EncodeDecodeLow(Low64(sequence), 8);
    EntriesTogether(h, user, EncodeLow(Low64(sequence), 8));
  }

  lemma EntriesTogether(h: Header, user: map<byte, seq<byte>>, sequence: seq<byte>)
    ensures var r := MarshallHeader(h, UserHeaders(user))[HEADER_KEY_SEQUENCE := sequence];
            HoldsHeader(r, h) && HoldsUser(r, user)
  {
    HeaderEntries(h, UserHeaders(user));
    SequenceBeside(MarshallHeader(h, UserHeaders(user)), h, user, sequence);
  }

  lemma SequenceBeside(headers: map<int, seq<byte>>, h: Header, user: map<byte, seq<byte>>, sequence: seq<byte>)
    requires HoldsHeader(headers, h)
    requires forall k :: k <= MAX_HEADER_KEY ==>
               (k in headers <==> k in UserHeaders(user)) && (k in headers ==> headers[k] == UserHeaders(user)[k])
    ensures HoldsHeader(headers[HEADER_KEY_SEQUENCE := sequence], h)
    ensures HoldsUser(headers[HEADER_KEY_SEQUENCE := sequence], user)
  {
    forall k: byte
      ensures (k in user <==> MIN_HEADER_KEY + k in headers) && (k in user ==> headers[MIN_HEADER_KEY + k] == user[k])
    {
      assert IsUserKey(user, MIN_HEADER_KEY + k) <==> k in user;
      assert MIN_HEADER_KEY + k in headers <==> MIN_HEADER_KEY + k in UserHeaders(user);
    }
  }

  // ----- flags -----

  datatype Originator = Initiator | Terminator

  const SESSION_END_FLAG := 1
  const EGRESS_FLAG := 2
  const SESSION_START_FLAG := 4

  predicate IsFlagSet(flags: uint32, flag: uint32)
    requires flag > 0
  {
    flags / flag % 2 == 1
  }

  /** Clears or sets the egress bit. */
  function SetOriginatorFlag(flags: uint32, originator: Originator): (r: uint32) {
    if originator.Initiator? && IsFlagSet(flags, EGRESS_FLAG) then flags - EGRESS_FLAG
    else if originator.Terminator? && !IsFlagSet(flags, EGRESS_FLAG) then Low32(flags + EGRESS_FLAG)
    else flags
  }

  function GetOriginator(flags: uint32): Originator {
    if IsFlagSet(flags, EGRESS_FLAG) then Terminator else Initiator
  }

  /** The originator is read back, and every other flag is as before. */
  lemma OriginatorFlag(flags: uint32, originator: Originator)
    ensures GetOriginator(SetOriginatorFlag(flags, originator)) == originator
    ensures IsFlagSet(SetOriginatorFlag(flags, originator), SESSION_END_FLAG) == IsFlagSet(flags, SESSION_END_FLAG)
    ensures SetOriginatorFlag(flags, originator) / SESSION_START_FLAG == flags / SESSION_START_FLAG
  {
    hide IsFlagSet;
    var q, low := flags / 4, flags % 4;
    FlagBits(flags, q, low);
    var low' := if originator.Initiator? then low % 2 else low % 2 + 2;
    FlagBits(4 * q + low', q, low');
    assert SetOriginatorFlag(flags, originator) == 4 * q + low';
  }

  lemma FlagBits(flags: uint32, q: nat, low: nat)
    requires low < 4 && flags == 4 * q + low
    ensures IsFlagSet(flags, SESSION_END_FLAG) <==> low % 2 == 1
    ensures IsFlagSet(flags, EGRESS_FLAG) <==> low >= 2
    ensures flags / SESSION_START_FLAG == q
  {
    LowBits(q, low);
  }

  lemma LowBits(q: nat, low: nat)
    requires low < 4
    ensures (4 * q + low) / 4 == q
    ensures (4 * q + low) / 2 == 2 * q + low / 2
    ensures (4 * q + low) / 2 % 2 == low / 2
    ensures (4 * q + low) % 2 == low % 2
  {
  }
}
