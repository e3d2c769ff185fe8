/**
Modbus TCP framing: cutting a byte stream into frames by the MBAP header (section 3.1.3 of the MODBUS Messaging
on TCP/IP Implementation Guide V1.0b), reading requests and building replies (sections 4.1, 6.3, 6.4 and 7 of
the MODBUS Application Protocol Specification V1.1b3).
*/
module ModbusFrames {
  import opened Wrappers
  import opened RegisterTypes

  const MBAP_BYTES: nat := 6
  const MAX_PDU_BYTES: nat := 253
  const READ_REQUEST_BYTES: nat := 12
  const MAX_READ_REGISTERS: nat := 125

  datatype FrameHeader = FrameHeader(transactionId: Word, unitId: Byte, functionCode: Byte)

  datatype Request =
    | Read(header: FrameHeader, registerType: RegisterType, address: Word, quantity: nat)
    | Rejected(header: FrameHeader, exceptionCode: Byte)

  datatype FrameSplit = FrameSplit(frames: seq<seq<Byte>>, rest: seq<Byte>, broken: bool)

  const ILLEGAL_FUNCTION: Byte := 1
  const ILLEGAL_DATA_ADDRESS: Byte := 2
  const ILLEGAL_DATA_VALUE: Byte := 3

  function ReadU16(s: seq<Byte>, i: nat): (w: Word)
    requires i + 1 < |s|
  {
    BigEndian(s[i], s[i + 1])
  }

  function BigEndian(high: Byte, low: Byte): Word {
    var h: int := high;
    h * 256 + low
  }

  function U16(w: Word): (s: seq<Byte>)
    ensures |s| == 2
  {
    [w / 256, w % 256]
  }

  lemma U16RoundTrip(w: Word, s: seq<Byte>, i: nat)
    requires i + 1 < |s| && s[i..i + 2] == U16(w)
    ensures ReadU16(s, i) == w
  {
    assert s[i] == s[i..i + 2][0] && s[i + 1] == s[i..i + 2][1];
  }

  function LengthField(s: seq<Byte>): (n: Word)
    requires |s| >= MBAP_BYTES
  {
    ReadU16(s, 4)
  }

  predicate BadHeader(s: seq<Byte>)
    requires |s| >= MBAP_BYTES
  {
    ReadU16(s, 2) != 0 || LengthField(s) < 2 || LengthField(s) > MAX_PDU_BYTES + 1
  }

  // ---------------------------------------------------------------- splitting

  /** What the stream holds, one frame at a time from the front. */
  function Split(s: seq<Byte>): FrameSplit {
    if |s| < MBAP_BYTES then FrameSplit([], s, false)
    else if BadHeader(s) then FrameSplit([], [], true)
    else
      var end := MBAP_BYTES + LengthField(s);
      if end > |s| then FrameSplit([], s, false)
      else
        var more := Split(s[end..]);
        FrameSplit([s[..end]] + more.frames, more.rest, more.broken)
  }

  /** `split` with these frames before its own. */
  function Behind(frames: seq<seq<Byte>>, split: FrameSplit): FrameSplit {
    split.(frames := frames + split.frames)
  }

  lemma SplitOne(frames: seq<seq<Byte>>, s: seq<Byte>)
    ensures Behind(frames, Split(s)) ==
            if |s| < MBAP_BYTES then FrameSplit(frames, s, false)
            else if BadHeader(s) then FrameSplit(frames, [], true)
            else if MBAP_BYTES + LengthField(s) > |s| then FrameSplit(frames, s, false)
            else
              var end := MBAP_BYTES + LengthField(s);
              Behind(frames + [s[..end]], Split(s[end..]))
  {
    hide BadHeader, LengthField;
    assert frames + [] == frames;
    if |s| >= MBAP_BYTES && !BadHeader(s) && MBAP_BYTES + LengthField(s) <= |s| {
      var end := MBAP_BYTES + LengthField(s);
      assert frames + ([s[..end]] + Split(s[end..]).frames) == frames + [s[..end]] + Split(s[end..]).frames;
    }
  }

  method SplitFrames(buffer: array<Byte>) returns (split: FrameSplit)
    ensures split == Split(buffer[..])
  {
    hide Split, BigEndian;
    var frames: seq<seq<Byte>> := [];
    var offset := 0;
    assert buffer[0..] == buffer[..];
    while buffer.Length - offset >= MBAP_BYTES
      invariant 0 <= offset <= buffer.Length
      invariant Split(buffer[..]) == Behind(frames, Split(buffer[offset..]))
    {
      ghost var left := buffer[offset..];
      SplitOne(frames, left);
      var protocolId: Word := BigEndian(buffer[offset + 2], buffer[offset + 3]);
      var length: Word := BigEndian(buffer[offset + 4], buffer[offset + 5]);
      assert protocolId == ReadU16(left, 2) && length == LengthField(left);
      if protocolId != 0 || length < 2 || length > MAX_PDU_BYTES + 1 {
        return FrameSplit(frames, [], true);
      }
      var end := offset + MBAP_BYTES + length;
      if end > buffer.Length {
        break;
      }
      assert left[..end - offset] == buffer[offset..end] && left[end - offset..] == buffer[end..];
      frames := frames + [buffer[offset..end]];
      offset := end;
    }
    SplitOne(frames, buffer[offset..]);
    split := FrameSplit(frames, buffer[offset..], false);
  }

  function Concat(parts: seq<seq<Byte>>): seq<Byte> {
    if parts == [] then [] else parts[0] + Concat(parts[1..])
  }

  /** One whole frame: good header, and exactly as many bytes as it announces. */
  predicate WholeFrame(f: seq<Byte>) {
    |f| >= MBAP_BYTES && !BadHeader(f) && |f| == MBAP_BYTES + LengthField(f)
  }

  /** The beginning of a frame: more bytes are needed. */
  predicate Unfinished(s: seq<Byte>) {
    |s| < MBAP_BYTES || (!BadHeader(s) && |s| < MBAP_BYTES + LengthField(s))
  }

  predicate AllWhole(frames: seq<seq<Byte>>) {
    forall f :: f in frames ==> WholeFrame(f)
  }

  lemma HeaderOfPrefix(s: seq<Byte>, n: nat)
    requires MBAP_BYTES <= n <= |s|
    ensures BadHeader(s[..n]) == BadHeader(s) && LengthField(s[..n]) == LengthField(s)
  {
  }

  ghost predicate Conserved(s: seq<Byte>, split: FrameSplit) {
    && AllWhole(split.frames)
    && (!split.broken ==> Concat(split.frames) + split.rest == s && Unfinished(split.rest))
    && (split.broken ==>
          && |Concat(split.frames)| + MBAP_BYTES <= |s| && Concat(split.frames) == s[..|Concat(split.frames)|]
          && BadHeader(s[|Concat(split.frames)|..]))
  }

  lemma ConservedBehind(f: seq<Byte>, s: seq<Byte>, split: FrameSplit)
    requires WholeFrame(f) && Conserved(s, split)
    ensures Conserved(f + s, Behind([f], split))
  {
    hide WholeFrame, BadHeader, Unfinished;
    var frames := [f] + split.frames;
    assert frames[1..] == split.frames;
    var taken := Concat(split.frames);
    assert Concat(frames) == f + taken;
    if split.broken {
      assert (f + s)[|f + taken|..] == s[|taken|..];
      assert (f + s)[..|f + taken|] == f + s[..|taken|];
    } else {
      assert f + taken + split.rest == f + (taken + split.rest);
    }
  }

  /**
   Splitting cuts and loses nothing: whole frames, then less than one frame; or, if the stream is broken, whole
   frames up to a header that cannot be one.
   */
  lemma {:induction false} SplitConserves(s: seq<Byte>)
    ensures Conserved(s, Split(s))
    decreases |s|
  {
    hide BadHeader, LengthField;
    if |s| >= MBAP_BYTES && !BadHeader(s) && MBAP_BYTES + LengthField(s) <= |s| {
      var end := MBAP_BYTES + LengthField(s);
      SplitConserves(s[end..]);
      HeaderOfPrefix(s, end);
      ConservedBehind(s[..end], s[end..], Split(s[end..]));
      assert s == s[..end] + s[end..];
    }
  }

  /** Every frame has the room a request header needs and no more than the protocol's limit. */
  lemma FrameSizes(s: seq<Byte>)
    ensures forall f :: f in Split(s).frames ==> 8 <= |f| <= 260
    ensures !Split(s).broken ==> |Split(s).rest| < 260
  {
    hide BadHeader, LengthField, Split;
    SplitConserves(s);
    forall f | f in Split(s).frames ensures 8 <= |f| <= 260 {
      HeaderLimits(f);
    }
    HeaderLimits(Split(s).rest);
  }

  lemma HeaderLimits(s: seq<Byte>)
    ensures |s| >= MBAP_BYTES && !BadHeader(s) ==> 2 <= LengthField(s) <= 254
  {
  }

  /** The other way round: frames and the start of another, put together, split into themselves. */
  lemma {:induction false} FramesSplitBack(frames: seq<seq<Byte>>, rest: seq<Byte>)
    requires AllWhole(frames) && Unfinished(rest)
    ensures Split(Concat(frames) + rest) == FrameSplit(frames, rest, false)
  {
    hide BadHeader, LengthField, Split;
    var s := Concat(frames) + rest;
    SplitOne([], s);
    BehindNothing(Split(s));
    if frames == [] {
      assert s == rest;
    } else {
      var f, tail := frames[0], Concat(frames[1..]) + rest;
      FramesSplitBack(frames[1..], rest);
      assert s == f + tail;
      assert f in frames;
      assert s[..|f|] == f && s[|f|..] == tail;
      HeaderOfPrefix(s, |f|);
      assert frames == [f] + frames[1..];
    }
  }

  /** Splitting a + b is splitting a and then what is left of it with b; a broken stream stays broken. */
  lemma {:induction false} SplitInTwo(a: seq<Byte>, b: seq<Byte>)
    ensures var first := Split(a);
            Split(a + b) == if first.broken then first else Behind(first.frames, Split(first.rest + b))
    decreases |a|
  {
    hide BadHeader, LengthField, Split;
    SplitOne([], a);
    SplitOne([], a + b);
    BehindNothing(Split(a));
    BehindNothing(Split(a + b));
    if |a| >= MBAP_BYTES {
      assert (a + b)[..|a|] == a;
      HeaderOfPrefix(a + b, |a|);
      if !BadHeader(a) && MBAP_BYTES + LengthField(a) <= |a| {
        var end := MBAP_BYTES + LengthField(a);
        SplitInTwo(a[end..], b);
        assert (a + b)[..end] == a[..end] && (a + b)[end..] == a[end..] + b;
        var more := Split(a[end..]);
        assert [a[..end]] + (more.frames + Split(more.rest + b).frames) ==
               [a[..end]] + more.frames + Split(more.rest + b).frames;
      }
    }
  }

  lemma BehindNothing(split: FrameSplit)
    ensures Behind([], split) == split
  {
  }

  /** A connection that splits every chunk with what was left of the ones before, and stops when it breaks. */
  function Receive(chunks: seq<seq<Byte>>): FrameSplit {
    if chunks == [] then FrameSplit([], [], false)
    else
      var n := |chunks| - 1;
      var before := Receive(chunks[..n]);
      if before.broken then before else Behind(before.frames, Split(before.rest + chunks[n]))
  }

  lemma {:induction false} ConcatSnoc(parts: seq<seq<Byte>>, last: seq<Byte>)
    ensures Concat(parts + [last]) == Concat(parts) + last
  {
    if parts == [] {
      assert Concat([last]) == last + Concat([]);
    } else {
      assert (parts + [last])[1..] == parts[1..] + [last];
      ConcatSnoc(parts[1..], last);
    }
  }

  /** How the stream is cut into chunks does not matter. */
  lemma {:induction false} ChunkingIsInvisible(chunks: seq<seq<Byte>>)
    ensures Receive(chunks) == Split(Concat(chunks))
  {
    if chunks != [] {
      var n := |chunks| - 1;
      ChunkingIsInvisible(chunks[..n]);
      SplitInTwo(Concat(chunks[..n]), chunks[n]);
      ConcatSnoc(chunks[..n], chunks[n]);
      assert chunks == chunks[..n] + [chunks[n]];
    }
  }

  // ---------------------------------------------------------------- requests

  function ParseRequest(frame: seq<Byte>): Request
    requires |frame| >= 8
  {
    var header := FrameHeader(ReadU16(frame, 0), frame[6], frame[7]);
    if header.functionCode != 3 && header.functionCode != 4 then Rejected(header, ILLEGAL_FUNCTION)
    else if |frame| != READ_REQUEST_BYTES then Rejected(header, ILLEGAL_DATA_VALUE)
    else
      var address := ReadU16(frame, 8);
      var quantity := ReadU16(frame, 10);
      if quantity < 1 || quantity > MAX_READ_REGISTERS then Rejected(header, ILLEGAL_DATA_VALUE)
      else if address + quantity > 0x1_0000 then Rejected(header, ILLEGAL_DATA_ADDRESS)
      else Read(header, if header.functionCode == 3 then Holding else Input, address, quantity)
  }

  /** The frame of a read request, as a client writes it. */
  function ReadFrame(header: FrameHeader, address: Word, quantity: Word): seq<Byte> {
    U16(header.transactionId) + [0, 0, 0, 6, header.unitId, header.functionCode] + U16(address) + U16(quantity)
  }

  predicate Readable(header: FrameHeader, address: Word, quantity: Word) {
    && (header.functionCode == 3 || header.functionCode == 4)
    && 1 <= quantity <= MAX_READ_REGISTERS && address + quantity <= 0x1_0000
  }

  lemma U16Inverts(a: Byte, b: Byte)
    ensures U16(BigEndian(a, b)) == [a, b]
  {
  }

  /**
   Every frame the splitter hands over can be parsed without reading past its end, and it is accepted as a read
   exactly when it is, byte for byte, the frame of a legal read request.
   */
  lemma ReadIffReadFrame(frame: seq<Byte>, header: FrameHeader, address: Word, quantity: Word)
    requires WholeFrame(frame)
    ensures |frame| >= 8
    ensures ParseRequest(frame) ==
              Read(header, if header.functionCode == 3 then Holding else Input, address, quantity)
            <==> Readable(header, address, quantity) && frame == ReadFrame(header, address, quantity)
  {
    hide ReadFrame, WholeFrame, ReadU16;
    WholeFrameHasRoom(frame);
    if Readable(header, address, quantity) && frame == ReadFrame(header, address, quantity) {
      ReadFrameFields(header, address, quantity);
    }
    if |frame| == READ_REQUEST_BYTES {
      TwelveBytesAreAReadFrame(frame);
    }
  }

  lemma WholeFrameHasRoom(frame: seq<Byte>)
    requires WholeFrame(frame)
    ensures |frame| >= 8
  {
  }

  /** A whole frame of twelve bytes is the read frame of its own fields. */
  lemma TwelveBytesAreAReadFrame(frame: seq<Byte>)
    requires WholeFrame(frame) && |frame| == READ_REQUEST_BYTES
    ensures frame ==
            ReadFrame(FrameHeader(ReadU16(frame, 0), frame[6], frame[7]), ReadU16(frame, 8), ReadU16(frame, 10))
  {
    hide U16;
    U16Inverts(frame[0], frame[1]);
    U16Inverts(frame[8], frame[9]);
    U16Inverts(frame[10], frame[11]);
    LengthIsSix(frame);
  }

  lemma LengthIsSix(frame: seq<Byte>)
    requires WholeFrame(frame) && |frame| == READ_REQUEST_BYTES
    ensures frame[2] == 0 && frame[3] == 0 && frame[4] == 0 && frame[5] == 6
  {
  }

  lemma ReadFrameFields(header: FrameHeader, address: Word, quantity: Word)
    ensures var built := ReadFrame(header, address, quantity);
            && |built| == READ_REQUEST_BYTES && WholeFrame(built)
            && ReadU16(built, 0) == header.transactionId && built[6] == header.unitId && built[7] == header.functionCode
            && ReadU16(built, 8) == address && ReadU16(built, 10) == quantity
  {
    hide U16, BigEndian;
    var built := ReadFrame(header, address, quantity);
    FixedFields();
    assert built[0..2] == U16(header.transactionId) && built[8..10] == U16(address) && built[10..12] == U16(quantity);
    U16RoundTrip(header.transactionId, built, 0);
    U16RoundTrip(address, built, 8);
    U16RoundTrip(quantity, built, 10);
    assert built[4] == 0 && built[5] == 6 && built[2] == 0 && built[3] == 0;
  }

  lemma FixedFields()
    ensures BigEndian(0, 0) == 0 && BigEndian(0, 6) == 6
  {
  }

  /** A whole read request that is not legal is refused for the first reason the standard names. */
  lemma ReadFrameIsRefused(header: FrameHeader, address: Word, quantity: Word)
    requires !Readable(header, address, quantity)
    ensures |ReadFrame(header, address, quantity)| >= 8
    ensures ParseRequest(ReadFrame(header, address, quantity)) ==
            Rejected(header,
                     if header.functionCode !in {3, 4} then ILLEGAL_FUNCTION
                     else if quantity == 0 || quantity > 125 then ILLEGAL_DATA_VALUE
                     else ILLEGAL_DATA_ADDRESS)
  {
    hide ReadFrame, ReadU16, WholeFrame;
    ReadFrameFields(header, address, quantity);
  }

  // ---------------------------------------------------------------- replies

  /** A frame around a PDU. */
  function Framed(header: FrameHeader, pdu: seq<Byte>): seq<Byte>
    requires |pdu| + 1 < 0x1_0000
  {
    U16(header.transactionId) + [0, 0] + U16(|pdu| + 1) + [header.unitId] + pdu
  }

  function WordBytes(words: seq<Word>): (s: seq<Byte>)
    ensures |s| == 2 * |words|
  {
    if words == [] then [] else WordBytes(words[..|words| - 1]) + U16(words[|words| - 1])
  }

  function SentWords(words: seq<Word>, garbled: bool): seq<Word> {
    if garbled && words != [] then words[..|words| - 1] else words
  }

  function RegistersPdu(header: FrameHeader, words: seq<Word>, garbled: bool): seq<Byte>
    requires |words| <= MAX_READ_REGISTERS
  {
    [header.functionCode, 2 * |words|] + WordBytes(SentWords(words, garbled))
  }

  /** The function code with its high bit set. */
  function Raised(functionCode: Byte): Byte {
    if functionCode >= 0x80 then functionCode else functionCode + 0x80
  }

  lemma BytesOfOneMore(words: seq<Word>, i: nat)
    requires i < |words|
    ensures WordBytes(words[..i + 1]) == WordBytes(words[..i]) + U16(words[i])
  {
    assert words[..i + 1][..i] == words[..i];
  }

  method WithHeader(header: FrameHeader, pdu: array<Byte>) returns (frame: array<Byte>)
    requires pdu.Length + 1 < 0x1_0000
    ensures fresh(frame) && frame[..] == Framed(header, pdu[..])
  {
    hide U16;
    frame := new Byte[MBAP_BYTES + 1 + pdu.Length](_ => 0);
    WriteHeader(frame, header, pdu.Length);
    ghost var start := frame[..7];
    for i := 0 to pdu.Length
      invariant frame[..7] == start
      invariant forall k :: 0 <= k < i ==> frame[7 + k] == pdu[k]
    {
      frame[7 + i] := pdu[i];
    }
    assert frame[..] == frame[..7] + frame[7..];
    assert frame[7..] == pdu[..];
  }

  method WriteHeader(frame: array<Byte>, header: FrameHeader, pduLength: nat)
    requires frame.Length >= 7 && pduLength + 1 < 0x1_0000
    modifies frame
    ensures frame[..7] == U16(header.transactionId) + [0, 0] + U16(pduLength + 1) + [header.unitId]
  {
    WriteU16(frame, 0, header.transactionId);
    WriteU16(frame, 2, 0);
    WriteU16(frame, 4, pduLength + 1);
    frame[6] := header.unitId;
  }

  method WriteU16(a: array<Byte>, at: nat, w: Word)
    requires at + 1 < a.Length
    modifies a
    ensures a[..] == old(a[..])[..at] + U16(w) + old(a[..])[at + 2..]
  {
    a[at] := w / 256;
    a[at + 1] := w % 256;
  }

  method RegistersResponse(header: FrameHeader, words: seq<Word>, garbled: bool) returns (frame: array<Byte>)
    requires |words| <= MAX_READ_REGISTERS
    ensures fresh(frame) && frame[..] == Framed(header, RegistersPdu(header, words, garbled))
  {
    hide WordBytes, Framed;
    var sent := SentWords(words, garbled);
    var pdu := new Byte[2 + |sent| * 2](_ => 0);
    pdu[0] := header.functionCode;
    pdu[1] := |words| * 2;
    assert pdu[..2] == [header.functionCode, 2 * |words|];
    WriteWords(pdu, sent);
    frame := WithHeader(header, pdu);
  }

  /** Big-endian words after the first two bytes. */
  method WriteWords(pdu: array<Byte>, words: seq<Word>)
    requires pdu.Length == 2 + 2 * |words|
    modifies pdu
    ensures pdu[..] == old(pdu[..2]) + WordBytes(words)
  {
    hide WordBytes, U16;
    ghost var start := pdu[..2];
    assert WordBytes(words[..0]) == [];
    for i := 0 to |words|
      invariant pdu[..2 + 2 * i] == start + WordBytes(words[..i])
    {
      ghost var before := pdu[..2 + 2 * i];
      WriteU16(pdu, 2 + i * 2, words[i]);
      BytesOfOneMore(words, i);
      assert pdu[..2 + 2 * (i + 1)] == before + U16(words[i]);
    }
    assert words[..|words|] == words && pdu[..2 + 2 * |words|] == pdu[..];
  }

  method ExceptionResponse(header: FrameHeader, code: Byte) returns (frame: array<Byte>)
    ensures fresh(frame) && frame[..] == Framed(header, [Raised(header.functionCode), code])
  {
    var pdu := new Byte[2] [Raised(header.functionCode), code];
    assert pdu[..] == [Raised(header.functionCode), code];
    frame := WithHeader(header, pdu);
  }

  lemma FramedIsWhole(header: FrameHeader, pdu: seq<Byte>)
    requires 1 <= |pdu| <= MAX_PDU_BYTES
    ensures WholeFrame(Framed(header, pdu)) && |Framed(header, pdu)| == 7 + |pdu|
    ensures var frame := Framed(header, pdu);
            && ReadU16(frame, 0) == header.transactionId && frame[6] == header.unitId && frame[7..] == pdu
  {
    var frame := Framed(header, pdu);
    assert frame[0..2] == U16(header.transactionId);
    assert frame[4..6] == U16(|pdu| + 1);
    U16RoundTrip(header.transactionId, frame, 0);
    U16RoundTrip(|pdu| + 1, frame, 4);
  }

  /** A reply as the stand decides it. */
  datatype Reply = Registers(words: seq<Word>, garbled: bool) | Exception(code: Byte)

  predicate Sendable(reply: Reply) {
    reply.Registers? ==> |reply.words| <= MAX_READ_REGISTERS
  }

  function ReplyBytes(header: FrameHeader, reply: Reply): seq<Byte>
    requires Sendable(reply)
  {
    match reply
    case Registers(words, garbled) => Framed(header, RegistersPdu(header, words, garbled))
    case Exception(code) => Framed(header, [Raised(header.functionCode), code])
  }

  method ReplyFrame(header: FrameHeader, reply: Reply) returns (frame: array<Byte>)
    requires Sendable(reply)
    ensures fresh(frame) && frame[..] == ReplyBytes(header, reply)
  {
    match reply
    case Registers(words, garbled) => frame := RegistersResponse(header, words, garbled);
    case Exception(code) => frame := ExceptionResponse(header, code);
  }

  lemma {:induction false} RepliesAreWhole(replies: seq<(FrameHeader, Reply)>, frames: seq<seq<Byte>>)
    requires |frames| == |replies|
    requires forall i :: 0 <= i < |replies| ==>
               Sendable(replies[i].1) && frames[i] == ReplyBytes(replies[i].0, replies[i].1)
    ensures AllWhole(frames)
  {
    hide Framed, WholeFrame;
    forall f | f in frames ensures WholeFrame(f) {
      var i :| 0 <= i < |frames| && frames[i] == f;
      match replies[i].1
      case Registers(words, garbled) => FramedIsWhole(replies[i].0, RegistersPdu(replies[i].0, words, garbled));
      case Exception(code) => FramedIsWhole(replies[i].0, [Raised(replies[i].0.functionCode), code]);
    }
  }

  /** Whatever is sent down one connection, in whatever chunks it arrives, comes apart into the same replies. */
  lemma RepliesSplitBack(replies: seq<(FrameHeader, Reply)>, frames: seq<seq<Byte>>, chunks: seq<seq<Byte>>)
    requires |frames| == |replies|
    requires forall i :: 0 <= i < |replies| ==>
               Sendable(replies[i].1) && frames[i] == ReplyBytes(replies[i].0, replies[i].1)
    requires Concat(chunks) == Concat(frames)
    ensures Receive(chunks) == FrameSplit(frames, [], false)
  {
    hide ReplyBytes;
    RepliesAreWhole(replies, frames);
    FramesSplitBack(frames, []);
    assert Concat(frames) + [] == Concat(frames);
    ChunkingIsInvisible(chunks);
  }

  // ---------------------------------------------------------------- what a client reads out of a reply

  function WordsAt(s: seq<Byte>, n: nat): seq<Word>
    requires |s| == 2 * n
  {
    if n == 0 then [] else WordsAt(s[..2 * (n - 1)], n - 1) + [ReadU16(s, 2 * (n - 1))]
  }

  /** The words of a read reply, if the number of bytes it announces is the number it carries. */
  function WordsOf(frame: seq<Byte>): Option<seq<Word>> {
    if |frame| < 9 || frame[7] >= 0x80 then None
    else
      var count: int := frame[8];
      if |frame| == 9 + count && count % 2 == 0 then Some(WordsAt(frame[9..], count / 2)) else None
  }

  lemma {:induction false} WordsComeBack(words: seq<Word>)
    ensures WordsAt(WordBytes(words), |words|) == words
  {
    if words != [] {
      var n := |words| - 1;
      WordsComeBack(words[..n]);
      var s := WordBytes(words);
      assert s[..2 * n] == WordBytes(words[..n]) && s[2 * n..2 * n + 2] == U16(words[n]);
      U16RoundTrip(words[n], s, 2 * n);
    }
  }

  /** A plain reply gives its words back; a garbled one is never mistaken for an answer. */
  lemma ReplyCarriesWords(header: FrameHeader, words: seq<Word>, garbled: bool)
    requires |words| <= MAX_READ_REGISTERS && header.functionCode < 0x80
    ensures WordsOf(Framed(header, RegistersPdu(header, words, garbled))) ==
            if garbled && words != [] then None else Some(words)
  {
    hide Framed, WordBytes, WordsAt, WholeFrame;
    var pdu := RegistersPdu(header, words, garbled);
    var frame := Framed(header, pdu);
    FramedIsWhole(header, pdu);
    assert |frame| == 7 + |pdu|;
    assert frame[7] == pdu[0] && frame[8] == pdu[1];
    assert frame[9..] == frame[7..][2..] == WordBytes(SentWords(words, garbled));
    if !(garbled && words != []) {
      WordsComeBack(words);
    }
  }
}
