/**
 The length-prefixed DHT frames of serving_eligibility.py: one-shot decoding, and the two
 stream proxies that check a frame while it arrives in pieces.
 */
module Frames {
  import opened Basics

  // ---------- varints ----------

  datatype Varint = Incomplete | Malformed | Length(value: nat, size: nat)

  /** Little-endian groups of seven bits; at most ten bytes are looked at. */
  function VarintFrom(data: Bytes, index: nat, value: nat, unit: nat): Varint
    requires index <= |data| && index <= 10
    decreases |data| - index
  {
    if index == 10 then Malformed
    else if index == |data| then Incomplete
    else
      var v := value + data[index] % 128 * unit;
      if data[index] < 128 then Length(v, index + 1) else VarintFrom(data, index + 1, v, 128 * unit)
  }

  function VarintPrefix(data: Bytes): Varint {
    VarintFrom(data, 0, 0, 1)
  }

  /** _decode_varint_prefix. */
  method DecodeVarintPrefix(data: Bytes) returns (r: Varint)
    ensures r == VarintPrefix(data)
  {
    var value: nat, unit: nat, index: nat := 0, 1, 0;
    while index < |data| && index < 10
      invariant index <= |data| && index <= 10
      invariant VarintPrefix(data) == VarintFrom(data, index, value, unit)
    {
      var b := data[index];
      value := value + b % 128 * unit;
      if b < 128 { return Length(value, index + 1); }
      unit, index := 128 * unit, index + 1;
    }
    r := if |data| >= 10 then Malformed else Incomplete;
  }

  /** varint.encode: the shortest encoding. */
  function Encode(n: nat): (r: Bytes)
    ensures |r| > 0
  {
    if n < 128 then [n] else [128 + n % 128] + Encode(n / 128)
  }

  lemma {:induction false} VarintAppend(data: Bytes, tail: Bytes, index: nat, value: nat, unit: nat)
    requires index <= |data| && index <= 10
    requires !VarintFrom(data, index, value, unit).Incomplete?
    ensures VarintFrom(data + tail, index, value, unit) == VarintFrom(data, index, value, unit)
    decreases |data| - index
  {
    if index < |data| && index < 10 && data[index] >= 128 {
      VarintAppend(data, tail, index + 1, value + data[index] % 128 * unit, 128 * unit);
    }
  }

  lemma {:induction false} VarintSize(data: Bytes, index: nat, value: nat, unit: nat)
    requires index <= |data| && index <= 10
    ensures var r := VarintFrom(data, index, value, unit);
            && (r.Incomplete? ==> |data| < 10)
            && (r.Length? ==> index < r.size <= 10 && r.size <= |data|)
    decreases |data| - index
  {
    if index < |data| && index < 10 && data[index] >= 128 {
      VarintSize(data, index + 1, value + data[index] % 128 * unit, 128 * unit);
    }
  }

  /** More is needed while fewer than ten bytes all announce another one, and ten of those are refused. */
  lemma {:induction false} PrefixExactly(data: Bytes, index: nat, value: nat, unit: nat)
    requires index <= |data| && index <= 10
    ensures VarintFrom(data, index, value, unit).Incomplete?
            <==> |data| < 10 && forall i :: index <= i < |data| ==> data[i] >= 128
    ensures VarintFrom(data, index, value, unit).Malformed?
            <==> |data| >= 10 && forall i :: index <= i < 10 ==> data[i] >= 128
    decreases |data| - index
  {
    if index == 10 || index == |data| || data[index] < 128 {
    } else {
      PrefixExactly(data, index + 1, value + data[index] % 128 * unit, 128 * unit);
    }
  }

  /** 300 is written AC 02. */
  lemma ThreeHundred()
    ensures Encode(300) == [0xAC, 0x02]
  {
    assert 300 % 128 == 44 && 300 / 128 == 2;
  }

  lemma VarintLast(data: Bytes, index: nat, value: nat, unit: nat)
    requires index < |data| && index < 10 && data[index] < 128
    ensures VarintFrom(data, index, value, unit) == Length(value + data[index] * unit, index + 1)
  {
    assert data[index] % 128 == data[index];
  }

  lemma VarintMore(data: Bytes, index: nat, digit: nat, value: nat, unit: nat)
    requires index < |data| && index < 10 && digit < 128 && data[index] == 128 + digit
    ensures VarintFrom(data, index, value, unit) == VarintFrom(data, index + 1, value + digit * unit, 128 * unit)
  {
    assert data[index] % 128 == digit;
  }

  /** Decoding an encoding, whatever precedes and follows it in the buffer. */
  lemma {:induction false} VarintOfEncoding(before: Bytes, n: nat, after: Bytes, value: nat, unit: nat)
    requires |before| + |Encode(n)| <= 10
    ensures VarintFrom(before + Encode(n) + after, |before|, value, unit)
            == Length(value + n * unit, |before| + |Encode(n)|)
    decreases n
  {
    hide VarintFrom;
    var data := before + Encode(n) + after;
    assert data[|before|] == Encode(n)[0];
    if n < 128 {
      VarintLast(data, |before|, value, unit);
    } else {
      var digit, rest := n % 128, n / 128;
      var next := before + [128 + digit];
      assert next + Encode(rest) + after == data;
      VarintMore(data, |before|, digit, value, unit);
      VarintOfEncoding(next, rest, after, value + digit * unit, 128 * unit);
      Digits(n, unit);
    }
  }

  lemma Digits(n: nat, unit: nat)
    ensures n % 128 * unit + n / 128 * (128 * unit) == n * unit
  {
    assert n == n % 128 + 128 * (n / 128);
    assert n / 128 * (128 * unit) == 128 * (n / 128) * unit;
    assert (n % 128 + 128 * (n / 128)) * unit == n % 128 * unit + 128 * (n / 128) * unit;
  }

  // ---------- whole frames ----------

  /** The declared length, once the prefix is complete, canonical and not over the limit. */
  predicate GoodPrefix(data: Bytes, max: nat) {
    match VarintPrefix(data)
    case Length(n, size) => size <= |data| && n <= max && Encode(n) == data[..size]
    case _ => false
  }

  /** _read_bounded_dht_frame: None where it raises. */
  function ReadFrame(frame: Bytes, max: nat): Option<Bytes> {
    if !GoodPrefix(frame, max) then None
    else
      var v := VarintPrefix(frame);
      if |frame| - v.size != v.value then None else Some(frame[v.size..])
  }

  lemma EncodingDecodes(n: nat, tail: Bytes)
    requires |Encode(n)| <= 10
    ensures VarintPrefix(Encode(n) + tail) == Length(n, |Encode(n)|)
    ensures (Encode(n) + tail)[..|Encode(n)|] == Encode(n) && (Encode(n) + tail)[|Encode(n)|..] == tail
  {
    VarintOfEncoding([], n, tail, 0, 1);
    assert [] + Encode(n) + tail == Encode(n) + tail;
  }

  /** A frame is read back whole exactly when its payload is within the limit. */
  lemma FrameRoundTrip(payload: Bytes, max: nat)
    requires |Encode(|payload|)| <= 10
    ensures ReadFrame(Encode(|payload|) + payload, max) == if |payload| <= max then Some(payload) else None
  {
    EncodingDecodes(|payload|, payload);
  }

  /** And only such frames are read. */
  lemma ReadFrameIsEncoding(frame: Bytes, max: nat)
    requires ReadFrame(frame, max).Some?
    ensures frame == Encode(|ReadFrame(frame, max).value|) + ReadFrame(frame, max).value
    ensures |ReadFrame(frame, max).value| <= max
  {
    var v := VarintPrefix(frame);
    assert frame == frame[..v.size] + frame[v.size..];
  }

  // ---------- the fixed predicate on what has arrived ----------

  /** Not yet a whole prefix, or a good prefix with no more payload than declared. */
  predicate Acceptable(data: Bytes, max: nat) {
    match VarintPrefix(data)
    case Incomplete => true
    case Malformed => false
    case Length(n, size) => GoodPrefix(data, max) && |data| - size <= n
  }

  lemma GoodPrefixAppend(data: Bytes, tail: Bytes, max: nat)
    requires !VarintPrefix(data).Incomplete?
    ensures VarintPrefix(data + tail) == VarintPrefix(data)
    ensures GoodPrefix(data + tail, max) == GoodPrefix(data, max)
  {
    VarintAppend(data, tail, 0, 0, 1);
    VarintSize(data, 0, 0, 1);
    var v := VarintPrefix(data);
    if v.Length? { assert (data + tail)[..v.size] == data[..v.size]; }
  }

  /** What is refused stays refused whatever arrives later. */
  lemma RefusedStaysRefused(data: Bytes, tail: Bytes, max: nat)
    requires !Acceptable(data, max)
    ensures !Acceptable(data + tail, max)
  {
    GoodPrefixAppend(data, tail, max);
  }

  /** Once the declared length is known, bytes are refused exactly when nothing that follows can complete a frame. */
  lemma RefusedIsHopeless(data: Bytes, max: nat)
    requires !VarintPrefix(data).Incomplete?
    ensures Acceptable(data, max) <==> exists tail :: ReadFrame(data + tail, max).Some?
  {
    if Acceptable(data, max) {
      VarintSize(data, 0, 0, 1);
      var v := VarintPrefix(data);
      var tail := seq(v.value - (|data| - v.size), i => 0);
      GoodPrefixAppend(data, tail, max);
      assert ReadFrame(data + tail, max).Some?;
    }
    if tail :| ReadFrame(data + tail, max).Some? {
      CompleteIsAcceptable(data + tail, max);
      if !Acceptable(data, max) { RefusedStaysRefused(data, tail, max); }
    }
  }

  lemma FrameRefusalIsFinal(max: nat)
    ensures Final(data => Acceptable(data, max))
  {
    forall data, tail | !Acceptable(data, max) ensures !Acceptable(data + tail, max) {
      RefusedStaysRefused(data, tail, max);
    }
  }

  /** Nothing acceptable is longer than the largest frame. */
  lemma AcceptableIsBounded(data: Bytes, max: nat)
    requires Acceptable(data, max)
    ensures |data| <= max + 10
  {
    VarintSize(data, 0, 0, 1);
  }

  function Concat(chunks: seq<Bytes>): Bytes {
    if chunks == [] then [] else Concat(chunks[..|chunks| - 1]) + chunks[|chunks| - 1]
  }

  /** A size no stream may be asked for. */
  predicate BadSize(n: Option<int>, max: nat) {
    n.Some? && (n.value < 0 || n.value > max)
  }

  /** Refusals are final: nothing that arrives later repairs them. */
  ghost predicate Final(ok: Bytes -> bool) {
    forall data, tail :: !ok(data) ==> !ok(data + tail)
  }

  /** So a refused run of chunks stays refused whatever chunks follow. */
  lemma {:induction false} StaysRefused(chunks: seq<Bytes>, n: nat, ok: Bytes -> bool)
    requires n <= |chunks| && Final(ok) && !ok(Concat(chunks[..n]))
    ensures !ok(Concat(chunks))
    decreases |chunks|
  {
    if n == |chunks| {
      assert chunks[..n] == chunks;
    } else {
      var last := |chunks| - 1;
      assert chunks[..last][..n] == chunks[..n];
      StaysRefused(chunks[..last], n, ok);
      assert !ok(Concat(chunks[..last]) + chunks[last]);
    }
  }

  // ---------- the inbound stream ----------

  /** BoundedInboundDHTStream, without its deadlines. */
  class BoundedInboundStream {
    const max: nat
    var prefix: Bytes
    var length: Option<nat>
    var payloadRead: nat
    ghost var received: Bytes

    ghost predicate Valid()
      reads this
    {
      && Acceptable(received, max)
      && match length
         case None => prefix == received && VarintPrefix(received).Incomplete?
         case Some(n) =>
           && VarintPrefix(received).Length? && n == VarintPrefix(received).value
           && payloadRead == |received| - VarintPrefix(received).size
    }

    constructor (max: nat)
      ensures Valid() && this.max == max && received == []
    {
      this.max := max;
      prefix, length, payloadRead, received := [], None, 0, [];
    }

    /** One read of at most `n` bytes, answered by `chunk`: it raises exactly when what has arrived is unacceptable. */
    method Read(n: Option<int>, chunk: Bytes) returns (raised: bool)
      requires Valid()
      modifies this
      ensures received == if BadSize(n, max) then old(received) else old(received) + chunk
      ensures raised <==> BadSize(n, max) || !Acceptable(received, max)
      ensures !raised ==> Valid()
    {
      if n.Some? && n.value < 0 { return true; }
      if n.Some? && n.value > max { return true; }
      ghost var before := received;
      received := received + chunk;
      if |chunk| > max + 10 {
        if Acceptable(received, max) { AcceptableIsBounded(received, max); }
        return true;
      }
      if length.None? {
        prefix := prefix + chunk;
        var decoded := DecodeVarintPrefix(prefix);
        VarintSize(prefix, 0, 0, 1);
        match decoded
        case Malformed => return true;
        case Incomplete => return false;
        case Length(n, size) =>
          if n > max { return true; }
          if Encode(n) != prefix[..size] { return true; }
          length := Some(n);
          payloadRead := |prefix| - size;
      } else {
        GoodPrefixAppend(before, chunk, max);
        payloadRead := payloadRead + |chunk|;
      }
      raised := payloadRead > length.value;
    }

    /** Once everything declared has arrived, the one-shot decoder returns the payload. */
    lemma CompleteFrame()
      requires Valid() && length == Some(payloadRead)
      ensures ReadFrame(received, max) == Some(received[VarintPrefix(received).size..])
      ensures |received[VarintPrefix(received).size..]| == payloadRead
    {
      VarintSize(received, 0, 0, 1);
    }
  }

  /** Reading chunk after chunk until one raises. */
  method ReadAll(chunks: seq<Bytes>, max: nat) returns (raised: bool)
    ensures raised <==> !Acceptable(Concat(chunks), max)
  {
    var stream := new BoundedInboundStream(max);
    for i := 0 to |chunks|
      invariant stream.Valid() && stream.max == max && fresh(stream)
      invariant stream.received == Concat(chunks[..i])
    {
      assert chunks[..i + 1][..i] == chunks[..i];
      raised := stream.Read(None, chunks[i]);
      if raised {
        FrameRefusalIsFinal(max);
        StaysRefused(chunks, i + 1, data => Acceptable(data, max));
        return;
      }
    }
    assert chunks[..|chunks|] == chunks;
    raised := false;
  }

  // ---------- the tracked outbound stream ----------

  /** A complete frame whose payload is a valid reply to the request. */
  predicate ValidReply(data: Bytes, max: nat, valid: Bytes -> bool) {
    ReadFrame(data, max).Some? && valid(ReadFrame(data, max).value)
  }

  /** The response bytes seen so far are fine: acceptable, and valid if complete. */
  predicate ReplyAcceptable(data: Bytes, max: nat, valid: Bytes -> bool) {
    Acceptable(data, max) && (ReadFrame(data, max).Some? ==> valid(ReadFrame(data, max).value))
  }

  lemma ReplyRefusedStaysRefused(data: Bytes, tail: Bytes, max: nat, valid: Bytes -> bool)
    requires !ReplyAcceptable(data, max, valid)
    ensures !ReplyAcceptable(data + tail, max, valid)
  {
    if tail == [] {
      assert data + tail == data;
    } else if Acceptable(data, max) {
      VarintSize(data, 0, 0, 1);
      GoodPrefixAppend(data, tail, max);
    } else {
      RefusedStaysRefused(data, tail, max);
    }
  }

  // ---------- the request in front of it ----------

  /** What may have been written so far. */
  predicate RequestAcceptable(data: Bytes, max: nat) {
    |data| <= max + 10 && (VarintPrefix(data).Incomplete? || GoodPrefix(data, max))
  }

  /** One whole non-empty frame that parses as a typed request. */
  predicate CompleteRequest(data: Bytes, max: nat, parses: Bytes -> bool) {
    ReadFrame(data, max).Some? && ReadFrame(data, max).value != [] && parses(ReadFrame(data, max).value)
  }

  /** A whole frame or more, and not a request: nothing written later makes it one. */
  predicate NoRequest(data: Bytes, max: nat, parses: Bytes -> bool) {
    && GoodPrefix(data, max) && |data| - VarintPrefix(data).size >= VarintPrefix(data).value
    && !CompleteRequest(data, max, parses)
  }

  lemma RequestRefusedStaysRefused(data: Bytes, tail: Bytes, max: nat)
    requires !RequestAcceptable(data, max)
    ensures !RequestAcceptable(data + tail, max)
  {
    if !VarintPrefix(data).Incomplete? { GoodPrefixAppend(data, tail, max); }
  }

  lemma NoRequestStays(data: Bytes, tail: Bytes, max: nat, parses: Bytes -> bool)
    requires NoRequest(data, max, parses)
    ensures NoRequest(data + tail, max, parses)
  {
    GoodPrefixAppend(data, tail, max);
    if tail == [] { assert data + tail == data; }
  }

  lemma MoreThanARequest(data: Bytes, tail: Bytes, max: nat, parses: Bytes -> bool)
    requires CompleteRequest(data, max, parses) && tail != []
    ensures NoRequest(data + tail, max, parses)
  {
    GoodPrefixAppend(data, tail, max);
  }

  /** What a reply to this request must satisfy. */
  function ReplyTo(valid: (Bytes, Bytes) -> bool, request: Bytes): Bytes -> bool {
    payload => valid(request, payload)
  }

  /** BoundedDHTStream, without its deadlines. */
  class BoundedDhtStream {
    const max: nat
    const parses: Bytes -> bool
    const valid: (Bytes, Bytes) -> bool
    var tracking: bool
    var request: Bytes
    var message: Option<Bytes>
    var writtenBytes: nat
    var prefix: Bytes
    var length: Option<nat>
    var payload: Bytes
    var proofRecorded: bool
    var proofs: nat
    ghost var written: Bytes
    ghost var received: Bytes

    /** The writing half: whether a reply is awaited is a function of all that was written. */
    ghost predicate ValidRequest()
      reads this
    {
      && RequestAcceptable(written, max) && writtenBytes == |written|
      && (tracking ==>
            && request == written
            && message == if CompleteRequest(written, max, parses) then ReadFrame(written, max) else None)
      && (tracking && message.None? ==> !NoRequest(written, max, parses))
      && (!tracking ==> NoRequest(written, max, parses))
    }

    /** The reading half, against everything read since the request was complete. */
    ghost predicate ValidReading()
      reads this
    {
      && proofs == (if proofRecorded then 1 else 0)
      && (match message
          case None => received == [] && !proofRecorded
          case Some(m) =>
            && ReplyAcceptable(received, max, ReplyTo(valid, m))
            && (proofRecorded <==> ValidReply(received, max, ReplyTo(valid, m))))
      && match length
         case None => prefix == received && payload == [] && VarintPrefix(received).Incomplete?
         case Some(n) =>
           && VarintPrefix(received).Length? && n == VarintPrefix(received).value
           && VarintPrefix(received).size <= |received| && payload == received[VarintPrefix(received).size..]
    }

    constructor (max: nat, parses: Bytes -> bool, valid: (Bytes, Bytes) -> bool)
      ensures ValidRequest() && ValidReading() && tracking && message.None?
      ensures this.max == max && this.parses == parses && this.valid == valid
      ensures written == [] && received == [] && proofs == 0
    {
      this.max, this.parses, this.valid := max, parses, valid;
      tracking, request, message, writtenBytes := true, [], None, 0;
      prefix, length, payload, proofRecorded, proofs := [], None, [], false, 0;
      written, received := [], [];
    }

    /** write: it raises exactly when what has been written is unacceptable. */
    method Write(data: Bytes) returns (raised: bool)
      requires ValidRequest() && ValidReading()
      modifies this`written, this`writtenBytes, this`request, this`tracking, this`message
      ensures written == old(written) + data
      ensures raised <==> !RequestAcceptable(written, max)
      ensures !raised ==> ValidRequest() && ValidReading()
      ensures !raised ==> (tracking && message.Some? <==> CompleteRequest(written, max, parses))
    {
      ghost var before := written;
      written := written + data;
      writtenBytes := writtenBytes + |data|;
      if writtenBytes > max + 10 { return true; }
      if !tracking {
        NoRequestStays(before, data, max, parses);
        return false;
      }
      if data == [] { assert before + data == before; }
      else if message.Some? { MoreThanARequest(before, data, max, parses); }
      request := request + data;
      raised := ObserveRequest();
    }

    /** _observe_request. */
    method ObserveRequest() returns (raised: bool)
      requires tracking && request == written && writtenBytes == |written| <= max + 10
      requires message.Some? ==>
                 || NoRequest(written, max, parses)
                 || (CompleteRequest(written, max, parses) && message == ReadFrame(written, max))
      modifies this`tracking, this`message
      ensures raised <==> !RequestAcceptable(written, max)
      ensures !raised ==> ValidRequest()
      ensures old(message).Some? ==> message == old(message)
      ensures !raised ==> (tracking && message.Some? <==> CompleteRequest(written, max, parses))
    {
      var decoded := DecodeVarintPrefix(request);
      VarintSize(request, 0, 0, 1);
      match decoded
      case Malformed => return true;
      case Incomplete => return false;
      case Length(n, size) =>
        if Encode(n) != request[..size] { return true; }
        if n == 0 { tracking := false; return false; }
        if n > max { return true; }
        if |request| < size + n { return false; }
        if |request| != size + n { tracking := false; return false; }
        if parses(request[size..]) { message := Some(request[size..]); } else { tracking := false; }
        raised := false;
    }

    /**
     read of at most `n` bytes, answered by `chunk`: chunks are observed once a request is
     complete and while nothing follows it, and none may be longer than the largest read.
     */
    method Read(n: Option<int>, chunk: Bytes) returns (raised: bool)
      requires ValidRequest() && ValidReading()
      modifies this`received, this`prefix, this`length, this`payload, this`proofRecorded, this`proofs
      ensures var observed := !BadSize(n, max) && |chunk| <= max + 1 && CompleteRequest(written, max, parses);
              && received == (if observed then old(received) + chunk else old(received))
              && (!observed ==> proofs == old(proofs))
              && (observed ==>
                    proofs == if ValidReply(received, max, ReplyTo(valid, message.value)) then 1 else old(proofs))
      ensures raised <==> BadSize(n, max) || |chunk| > max + 1
                          || (message.Some? && !ReplyAcceptable(received, max, ReplyTo(valid, message.value)))
      ensures !raised ==> ValidReading()
      ensures proofs <= 1
    {
      if n.Some? && n.value < 0 { return true; }
      if n.Some? && n.value > max { return true; }
      if |chunk| > max + 1 { return true; }
      if !tracking || message.None? || chunk == [] {
        if chunk == [] { assert received + chunk == received; }
        return false;
      }
      raised := Observe(chunk);
    }

    /** _observe_response on a non-empty chunk. */
    method Observe(chunk: Bytes) returns (raised: bool)
      requires ValidReading() && message.Some? && chunk != []
      modifies this`received, this`prefix, this`length, this`payload, this`proofRecorded, this`proofs
      ensures received == old(received) + chunk
      ensures raised <==> !ReplyAcceptable(received, max, ReplyTo(valid, message.value))
      ensures !raised ==> ValidReading()
      ensures proofs <= 1
      ensures proofs == if ValidReply(received, max, ReplyTo(valid, message.value)) then 1 else old(proofs)
    {
      ghost var before := received;
      received := received + chunk;
      if length.None? {
        prefix := prefix + chunk;
        var decoded := DecodeVarintPrefix(prefix);
        VarintSize(prefix, 0, 0, 1);
        match decoded
        case Malformed => return true;
        case Incomplete => return false;
        case Length(n, size) =>
          if Encode(n) != prefix[..size] { return true; }
          if n > max { return true; }
          length := Some(n);
          payload := prefix[size..];
          prefix := [];
      } else {
        VarintSize(before, 0, 0, 1);
        GoodPrefixAppend(before, chunk, max);
        payload := payload + chunk;
        assert payload == received[VarintPrefix(received).size..];
      }
      if |payload| > length.value { return true; }
      if |payload| != length.value || proofRecorded { return false; }
      if !valid(message.value, payload) { return true; }
      proofRecorded := true;
      proofs := proofs + 1;
      raised := false;
    }
  }

  /** Writing chunk after chunk until one raises. */
  method WriteAll(stream: BoundedDhtStream, chunks: seq<Bytes>) returns (raised: bool)
    requires stream.ValidRequest() && stream.ValidReading() && stream.tracking && stream.message.None?
    requires stream.written == [] && stream.received == []
    modifies stream
    ensures raised <==> !RequestAcceptable(Concat(chunks), stream.max)
    ensures !raised ==> stream.ValidRequest() && stream.ValidReading() && stream.received == [] && stream.proofs == 0
    ensures !raised ==> stream.written == Concat(chunks)
    ensures !raised ==>
              (stream.tracking && stream.message.Some? <==> CompleteRequest(stream.written, stream.max, stream.parses))
    ensures !raised && stream.tracking && stream.message.Some? ==>
              stream.message == ReadFrame(stream.written, stream.max)
  {
    for i := 0 to |chunks|
      invariant stream.ValidRequest() && stream.ValidReading()
      invariant stream.written == Concat(chunks[..i]) && stream.received == [] && stream.proofs == 0
    {
      assert chunks[..i + 1][..i] == chunks[..i];
      raised := stream.Write(chunks[i]);
      if raised {
        RequestRefusalIsFinal(stream.max);
        StaysRefused(chunks, i + 1, data => RequestAcceptable(data, stream.max));
        return;
      }
    }
    assert chunks[..|chunks|] == chunks;
    raised := false;
  }

  /** Some chunk is longer than any the source asks its stream for. */
  predicate Overlong(chunks: seq<Bytes>, max: nat) {
    exists i :: 0 <= i < |chunks| && |chunks[i]| > max + 1
  }

  /** Whether reading these chunks as the reply raises: the one condition that depends on how they are cut. */
  predicate ReplyRaises(chunks: seq<Bytes>, max: nat, valid: Bytes -> bool) {
    Overlong(chunks, max) || !ReplyAcceptable(Concat(chunks), max, valid)
  }

  /** Reading chunk after chunk, until one raises; without a complete request nothing is observed. */
  method ReadAllReplies(stream: BoundedDhtStream, chunks: seq<Bytes>) returns (raised: bool)
    requires stream.ValidRequest() && stream.ValidReading() && stream.received == [] && stream.proofs == 0
    modifies stream
    ensures stream.proofs <= 1
    ensures old(CompleteRequest(stream.written, stream.max, stream.parses) && stream.message.Some?) ==>
              var valid := ReplyTo(stream.valid, old(stream.message.value));
              && (raised <==> ReplyRaises(chunks, stream.max, valid))
              && (!raised ==> (stream.proofs == 1 <==> ValidReply(Concat(chunks), stream.max, valid)))
    ensures old(!CompleteRequest(stream.written, stream.max, stream.parses)) ==>
              (raised <==> Overlong(chunks, stream.max)) && stream.proofs == 0
  {
    hide CompleteRequest, RequestAcceptable, ReplyAcceptable, ValidReply, NoRequest, ReadFrame, Final;
    ghost var complete := CompleteRequest(stream.written, stream.max, stream.parses);
    for i := 0 to |chunks|
      invariant stream.ValidRequest() && stream.ValidReading() && stream.message == old(stream.message)
      invariant stream.written == old(stream.written)
      invariant stream.received == if complete then Concat(chunks[..i]) else []
      invariant !complete ==> stream.proofs == 0
      invariant forall j :: 0 <= j < i ==> |chunks[j]| <= stream.max + 1
    {
      assert chunks[..i + 1][..i] == chunks[..i];
      raised := stream.Read(None, chunks[i]);
      if raised {
        if |chunks[i]| <= stream.max + 1 {
          ghost var valid := ReplyTo(stream.valid, stream.message.value);
          ReplyRefusalIsFinal(stream.max, valid);
          StaysRefused(chunks, i + 1, data => ReplyAcceptable(data, stream.max, valid));
        }
        return;
      }
    }
    assert chunks[..|chunks|] == chunks;
    raised := false;
  }

  /**
   One exchange, cut into chunks in any way on both sides: it raises exactly when the bytes
   written are unacceptable, or some chunk read is overlong, or, for a complete request, the bytes
   read are unacceptable; a serving proof is recorded once, exactly for a complete request
   answered by a complete valid frame.
   */
  method Exchange(
    requests: seq<Bytes>, replies: seq<Bytes>, max: nat, parses: Bytes -> bool, valid: (Bytes, Bytes) -> bool)
    returns (raised: bool, proofs: nat)
    ensures var asked, told := Concat(requests), Concat(replies);
            var complete := CompleteRequest(asked, max, parses);
            && (raised <==>
                  || !RequestAcceptable(asked, max)
                  || Overlong(replies, max)
                  || (complete && !ReplyAcceptable(told, max, ReplyTo(valid, ReadFrame(asked, max).value))))
            && proofs <= 1
            && (!raised ==> (proofs == 1 <==>
                  complete && ValidReply(told, max, ReplyTo(valid, ReadFrame(asked, max).value))))
  {
    hide RequestAcceptable, ReplyAcceptable, ValidReply, NoRequest, Acceptable, VarintPrefix;
    var stream := new BoundedDhtStream(max, parses, valid);
    raised := WriteAll(stream, requests);
    if raised { return true, 0; }
    raised := ReadAllReplies(stream, replies);
    proofs := stream.proofs;
  }

  lemma RequestRefusalIsFinal(max: nat)
    ensures Final(data => RequestAcceptable(data, max))
  {
    forall data, tail | !RequestAcceptable(data, max) ensures !RequestAcceptable(data + tail, max) {
      RequestRefusedStaysRefused(data, tail, max);
    }
  }

  lemma ReplyRefusalIsFinal(max: nat, valid: Bytes -> bool)
    ensures Final(data => ReplyAcceptable(data, max, valid))
  {
    forall data, tail | !ReplyAcceptable(data, max, valid) ensures !ReplyAcceptable(data + tail, max, valid) {
      ReplyRefusedStaysRefused(data, tail, max, valid);
    }
  }

  /**
   Cutting matters for the largest replies alone: a complete valid frame raises as one chunk
   exactly when it is longer than max + 1, and never when its first bytes are read apart.
   */
  lemma OverlongReplyRaises(payload: Bytes, max: nat, valid: Bytes -> bool)
    requires |payload| <= max && valid(payload) && |Encode(|payload|)| <= 10 && |Encode(|payload|)| <= max + 1
    ensures var prefix := Encode(|payload|);
            && ValidReply(prefix + payload, max, valid)
            && (ReplyRaises([prefix + payload], max, valid) <==> |prefix| + |payload| > max + 1)
            && !ReplyRaises([prefix, payload], max, valid)
  {
    hide Encode, VarintPrefix, GoodPrefix;
    var prefix := Encode(|payload|);
    FrameRoundTrip(payload, max);
    CompleteIsAcceptable(prefix + payload, max);
    ConcatTwo(prefix, payload);
    ConcatTwo([], prefix + payload);
    assert [] + (prefix + payload) == prefix + payload;
    assert |[prefix + payload][0]| == |prefix| + |payload|;
  }

  lemma ConcatTwo(a: Bytes, b: Bytes)
    ensures Concat([b]) == [] + b && Concat([a, b]) == a + b
  {
    var one, two: seq<Bytes> := [a], [a, b];
    assert two[..1] == one && one[..0] == [] && [b][..0] == one[..0] && [] + a == a;
  }

  lemma CompleteIsAcceptable(data: Bytes, max: nat)
    requires ReadFrame(data, max).Some?
    ensures Acceptable(data, max)
  {
  }
}
