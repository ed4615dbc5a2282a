/** The canonical byte encoding of a trace, the framed hash, and the replay chain. Text is its UTF-8 bytes. */
module CanonicalTrace {
  import opened Bytes

  type Text = seq<u8>

  datatype Binding = Binding(identity: Text, version: Text, hash: Text)

  datatype Locator = Locator(recordIndex: nat, byteOffset: nat, byteLength: nat, digest: Text)

  datatype Cited<T> = Cited(value: T, locator: Locator)

  datatype RawRecord = RawRecord(recordIndex: nat, digest: Text)

  datatype Event = Event(eventId: Cited<Text>, sequenceIndex: Cited<nat>, kind: Cited<Text>,
                         sourceItemId: Option<Cited<Text>>, rawRecord: RawRecord)

  datatype Trace = Trace(schema: Binding, runId: Cited<Text>, adapter: Binding, policy: Binding,
                         recordCount: nat, captureDigest: Text, events: seq<Event>)

  /** The ASCII bytes of a literal. */
  function Ascii(s: string): Text {
    seq(|s|, i requires 0 <= i < |s| => if s[i] as int < 128 then (s[i] as int) as u8 else 0)
  }

  const HASH_ENVELOPE := Ascii("legitimacy.trajectory.hash.v0\0")
  const TRACE_MAGIC := Ascii("legitimacy.trajectory.trace.canonical.v0\0")
  const LIMIT := 0x1_0000_0000_0000_0000

  // ---- numbers and frames

  function BigEndian(n: nat, width: nat): (r: seq<u8>)
    ensures |r| == width
  {
    if width == 0 then [] else BigEndian(n / 256, width - 1) + [(n % 256) as u8]
  }

  function Value(bytes: seq<u8>): nat {
    if bytes == [] then 0 else Value(bytes[..|bytes| - 1]) * 256 + bytes[|bytes| - 1] as nat
  }

  function Power(width: nat): nat {
    if width == 0 then 1 else 256 * Power(width - 1)
  }

  lemma {:induction false} BigEndianValue(n: nat, width: nat)
    requires n < Power(width)
    ensures Value(BigEndian(n, width)) == n
  {
    if width > 0 {
      BigEndianValue(n / 256, width - 1);
      var r := BigEndian(n, width);
      assert r[..|r| - 1] == BigEndian(n / 256, width - 1);
    }
  }

  lemma LimitIsPower()
    ensures Power(8) == LIMIT
  {}

  /** A big-endian unsigned 64-bit number; the packing fails above the limit. */
  function Number(n: nat): (r: seq<u8>)
    ensures |r| == 8
  {
    BigEndian(n, 8)
  }

  function Frame(value: seq<u8>): seq<u8> { Number(|value|) + value }

  function Frames(components: seq<seq<u8>>): seq<u8> {
    if components == [] then [] else Frame(components[0]) + Frames(components[1..])
  }

  function Payload(domain: Text, components: seq<seq<u8>>): seq<u8> {
    HASH_ENVELOPE + Frame(domain) + Number(|components|) + Frames(components)
  }

  // ---- the encoding

  function BindingBytes(b: Binding): seq<u8> { Frame(b.identity) + Frame(b.version) + Frame(b.hash) }

  function LocatorBytes(l: Locator): seq<u8> {
    Number(l.recordIndex) + Number(l.byteOffset) + Number(l.byteLength) + Frame(l.digest)
  }

  /** A cited value whose own bytes are given. */
  function CitedBytes(value: seq<u8>, l: Locator): seq<u8> { [1] + value + [0] + LocatorBytes(l) }

  function SourceBytes(source: Option<Cited<Text>>): seq<u8> {
    match source
    case None => [0]
    case Some(c) => [1] + CitedBytes(Frame(c.value), c.locator)
  }

  function EventBytes(e: Event): seq<u8> {
    CitedBytes(Frame(e.eventId.value), e.eventId.locator)
    + CitedBytes(Number(e.sequenceIndex.value), e.sequenceIndex.locator)
    + CitedBytes(Frame(e.kind.value), e.kind.locator)
    + SourceBytes(e.sourceItemId)
    + Number(e.rawRecord.recordIndex)
    + Frame(e.rawRecord.digest)
    + Number(0)
  }

  function EventsBytes(events: seq<Event>): seq<u8> {
    if events == [] then [] else EventBytes(events[0]) + EventsBytes(events[1..])
  }

  function HeaderBytes(t: Trace): seq<u8> {
    TRACE_MAGIC + BindingBytes(t.schema) + CitedBytes(Frame(t.runId.value), t.runId.locator) + BindingBytes(t.adapter)
    + BindingBytes(t.policy) + Number(t.recordCount) + Frame(t.captureDigest) + Number(|t.events|)
  }

  function TraceBytes(t: Trace): seq<u8> { HeaderBytes(t) + EventsBytes(t.events) }

  // ---- what can be encoded

  predicate Short(value: seq<u8>) { |value| < LIMIT }

  predicate ShortBinding(b: Binding) { Short(b.identity) && Short(b.version) && Short(b.hash) }

  predicate SmallLocator(l: Locator) {
    l.recordIndex < LIMIT && l.byteOffset < LIMIT && l.byteLength < LIMIT && Short(l.digest)
  }

  predicate ShortCited(c: Cited<Text>) { Short(c.value) && SmallLocator(c.locator) }

  predicate ValidEvent(e: Event) {
    && ShortCited(e.eventId) && e.sequenceIndex.value < LIMIT && SmallLocator(e.sequenceIndex.locator)
    && ShortCited(e.kind)
    && (e.sourceItemId.Some? ==> ShortCited(e.sourceItemId.value))
    && e.rawRecord.recordIndex < LIMIT && Short(e.rawRecord.digest)
  }

  predicate ValidTrace(t: Trace) {
    && ShortBinding(t.schema) && ShortCited(t.runId) && ShortBinding(t.adapter) && ShortBinding(t.policy)
    && t.recordCount < LIMIT && Short(t.captureDigest) && |t.events| < LIMIT
    && forall e :: e in t.events ==> ValidEvent(e)
  }

  // ---- a decoder, which the encoder does not have

  datatype Parsed<T> = Fail | Parsed(value: T, rest: seq<u8>)

  function ParseNumber(bytes: seq<u8>): Parsed<nat> {
    if |bytes| < 8 then Fail else Parsed(Value(bytes[..8]), bytes[8..])
  }

  function ParseFrame(bytes: seq<u8>): Parsed<seq<u8>> {
    match ParseNumber(bytes)
    case Fail => Fail
    case Parsed(n, rest) => if |rest| < n then Fail else Parsed(rest[..n], rest[n..])
  }

  function ParseTag(tag: u8, bytes: seq<u8>): Parsed<Unit> {
    if bytes == [] || bytes[0] != tag then Fail else Parsed(Unit.Unit, bytes[1..])
  }

  function ParseBinding(bytes: seq<u8>): Parsed<Binding> {
    match ParseFrame(bytes)
    case Fail => Fail
    case Parsed(identity, b) =>
      match ParseFrame(b)
      case Fail => Fail
      case Parsed(version, c) =>
        match ParseFrame(c)
        case Fail => Fail
        case Parsed(hash, rest) => Parsed(Binding(identity, version, hash), rest)
  }

  function ParseLocator(bytes: seq<u8>): Parsed<Locator> {
    match ParseNumber(bytes)
    case Fail => Fail
    case Parsed(index, b) =>
      match ParseNumber(b)
      case Fail => Fail
      case Parsed(offset, c) =>
        match ParseNumber(c)
        case Fail => Fail
        case Parsed(length, d) =>
          match ParseFrame(d)
          case Fail => Fail
          case Parsed(digest, rest) => Parsed(Locator(index, offset, length, digest), rest)
  }

  /** The part of a cited value that follows the value. */
  function ParseCitation<T>(value: Parsed<T>): Parsed<Cited<T>> {
    match value
    case Fail => Fail
    case Parsed(v, b) =>
      match ParseTag(0, b)
      case Fail => Fail
      case Parsed(_, c) =>
        match ParseLocator(c)
        case Fail => Fail
        case Parsed(l, rest) => Parsed(Cited(v, l), rest)
  }

  function ParseCitedText(bytes: seq<u8>): Parsed<Cited<Text>> {
    match ParseTag(1, bytes)
    case Fail => Fail
    case Parsed(_, b) => ParseCitation(ParseFrame(b))
  }

  function ParseCitedNumber(bytes: seq<u8>): Parsed<Cited<nat>> {
    match ParseTag(1, bytes)
    case Fail => Fail
    case Parsed(_, b) => ParseCitation(ParseNumber(b))
  }

  function ParseSource(bytes: seq<u8>): Parsed<Option<Cited<Text>>> {
    if bytes == [] then Fail
    else if bytes[0] == 0 then Parsed(None, bytes[1..])
    else if bytes[0] == 1 then
      match ParseCitedText(bytes[1..])
      case Fail => Fail
      case Parsed(c, rest) => Parsed(Some(c), rest)
    else Fail
  }

  function ParseEvent(bytes: seq<u8>): Parsed<Event> {
    match ParseCitedText(bytes)
    case Fail => Fail
    case Parsed(id, b) =>
      match ParseCitedNumber(b)
      case Fail => Fail
      case Parsed(index, c) =>
        match ParseCitedText(c)
        case Fail => Fail
        case Parsed(kind, d) =>
          match ParseSource(d)
          case Fail => Fail
          case Parsed(source, e) =>
            match ParseRaw(e)
            case Fail => Fail
            case Parsed(raw, rest) => Parsed(Event(id, index, kind, source, raw), rest)
  }

  function ParseRaw(bytes: seq<u8>): Parsed<RawRecord> {
    match ParseNumber(bytes)
    case Fail => Fail
    case Parsed(index, b) =>
      match ParseFrame(b)
      case Fail => Fail
      case Parsed(digest, c) =>
        match ParseNumber(c)
        case Fail => Fail
        case Parsed(zero, rest) => if zero == 0 then Parsed(RawRecord(index, digest), rest) else Fail
  }

  function ParseEvents(count: nat, bytes: seq<u8>): Parsed<seq<Event>> {
    if count == 0 then Parsed([], bytes)
    else
      match ParseEvent(bytes)
      case Fail => Fail
      case Parsed(e, b) =>
        match ParseEvents(count - 1, b)
        case Fail => Fail
        case Parsed(es, rest) => Parsed([e] + es, rest)
  }

  function ParseTrace(bytes: seq<u8>): Parsed<Trace> {
    if !(TRACE_MAGIC <= bytes) then Fail
    else
      match ParseBinding(bytes[|TRACE_MAGIC|..])
      case Fail => Fail
      case Parsed(schema, b) =>
        match ParseCitedText(b)
        case Fail => Fail
        case Parsed(runId, c) =>
          match ParseBinding(c)
          case Fail => Fail
          case Parsed(adapter, d) =>
            match ParseBinding(d)
            case Fail => Fail
            case Parsed(policy, e) =>
              match ParseCapture(e)
              case Fail => Fail
              case Parsed(capture, f) =>
                match ParseNumber(f)
                case Fail => Fail
                case Parsed(count, g) =>
                  match ParseEvents(count, g)
                  case Fail => Fail
                  case Parsed(events, rest) =>
                    Parsed(Trace(schema, runId, adapter, policy, capture.0, capture.1, events), rest)
  }

  function ParseCapture(bytes: seq<u8>): Parsed<(nat, Text)> {
    match ParseNumber(bytes)
    case Fail => Fail
    case Parsed(count, b) =>
      match ParseFrame(b)
      case Fail => Fail
      case Parsed(digest, rest) => Parsed((count, digest), rest)
  }

  // ---- the decoder undoes the encoder, whatever follows

  lemma Regroup3<T>(a: seq<T>, b: seq<T>, c: seq<T>)
    ensures a + b + c == a + (b + c)
  {}

  lemma Regroup9<T>(a: seq<T>, b: seq<T>, c: seq<T>, d: seq<T>, e: seq<T>, f: seq<T>, g: seq<T>, h: seq<T>, i: seq<T>)
    ensures a + b + c + d + e + f + g + h + i == a + (b + (c + (d + (e + (f + (g + (h + i)))))))
  {}

  lemma ParsesNumber(n: nat, rest: seq<u8>)
    requires n < LIMIT
    ensures ParseNumber(Number(n) + rest) == Parsed(n, rest)
  {
    LimitIsPower();
    BigEndianValue(n, 8);
    assert (Number(n) + rest)[..8] == Number(n) && (Number(n) + rest)[8..] == rest;
  }

  lemma ParsesFrame(v: seq<u8>, rest: seq<u8>)
    requires Short(v)
    ensures ParseFrame(Frame(v) + rest) == Parsed(v, rest)
  {
    assert Frame(v) + rest == Number(|v|) + (v + rest);
    ParsesNumber(|v|, v + rest);
    assert (v + rest)[..|v|] == v && (v + rest)[|v|..] == rest;
  }

  lemma ParsesBinding(b: Binding, rest: seq<u8>)
    requires ShortBinding(b)
    ensures ParseBinding(BindingBytes(b) + rest) == Parsed(b, rest)
  {
    assert BindingBytes(b) + rest == Frame(b.identity) + (Frame(b.version) + (Frame(b.hash) + rest));
    ParsesFrame(b.identity, Frame(b.version) + (Frame(b.hash) + rest));
    ParsesFrame(b.version, Frame(b.hash) + rest);
    ParsesFrame(b.hash, rest);
  }

  lemma ParsesLocator(l: Locator, rest: seq<u8>)
    requires SmallLocator(l)
    ensures ParseLocator(LocatorBytes(l) + rest) == Parsed(l, rest)
  {
    var d := Frame(l.digest) + rest;
    var c := Number(l.byteLength) + d;
    var b := Number(l.byteOffset) + c;
    assert LocatorBytes(l) + rest == Number(l.recordIndex) + b;
    ParsesNumber(l.recordIndex, b);
    ParsesNumber(l.byteOffset, c);
    ParsesNumber(l.byteLength, d);
    ParsesFrame(l.digest, rest);
  }

  lemma ParsesCitation<T>(v: T, l: Locator, rest: seq<u8>)
    requires SmallLocator(l)
    ensures ParseCitation(Parsed(v, [0] + LocatorBytes(l) + rest)) == Parsed(Cited(v, l), rest)
  {
    assert [0] + LocatorBytes(l) + rest == [0] + (LocatorBytes(l) + rest);
    ParsesLocator(l, rest);
  }

  lemma ParsesCitedText(c: Cited<Text>, rest: seq<u8>)
    requires ShortCited(c)
    ensures ParseCitedText(CitedBytes(Frame(c.value), c.locator) + rest) == Parsed(c, rest)
  {
    var tail := [0] + LocatorBytes(c.locator) + rest;
    assert CitedBytes(Frame(c.value), c.locator) + rest == [1] + (Frame(c.value) + tail);
    ParsesFrame(c.value, tail);
    ParsesCitation(c.value, c.locator, rest);
  }

  lemma ParsesCitedNumber(c: Cited<nat>, rest: seq<u8>)
    requires c.value < LIMIT && SmallLocator(c.locator)
    ensures ParseCitedNumber(CitedBytes(Number(c.value), c.locator) + rest) == Parsed(c, rest)
  {
    var tail := [0] + LocatorBytes(c.locator) + rest;
    assert CitedBytes(Number(c.value), c.locator) + rest == [1] + (Number(c.value) + tail);
    ParsesNumber(c.value, tail);
    ParsesCitation(c.value, c.locator, rest);
  }

  lemma ParsesSource(s: Option<Cited<Text>>, rest: seq<u8>)
    requires s.Some? ==> ShortCited(s.value)
    ensures ParseSource(SourceBytes(s) + rest) == Parsed(s, rest)
  {
    match s {
      case None =>
      case Some(c) =>
        var bytes := CitedBytes(Frame(c.value), c.locator);
        assert SourceBytes(s) + rest == [1] + (bytes + rest);
        ParsesCitedText(c, rest);
    }
  }

  function RawBytes(r: RawRecord): seq<u8> { Number(r.recordIndex) + (Frame(r.digest) + Number(0)) }

  lemma ParsesRaw(r: RawRecord, rest: seq<u8>)
    requires r.recordIndex < LIMIT && Short(r.digest)
    ensures ParseRaw(RawBytes(r) + rest) == Parsed(r, rest)
  {
    assert RawBytes(r) + rest == Number(r.recordIndex) + (Frame(r.digest) + (Number(0) + rest));
    ParsesNumber(r.recordIndex, Frame(r.digest) + (Number(0) + rest));
    ParsesFrame(r.digest, Number(0) + rest);
    ParsesNumber(0, rest);
  }

  lemma EventFromParts(x0: seq<u8>, x1: seq<u8>, x2: seq<u8>, x3: seq<u8>, x4: seq<u8>, x5: seq<u8>, e: Event)
    requires ParseCitedText(x0) == Parsed(e.eventId, x1)
    requires ParseCitedNumber(x1) == Parsed(e.sequenceIndex, x2)
    requires ParseCitedText(x2) == Parsed(e.kind, x3)
    requires ParseSource(x3) == Parsed(e.sourceItemId, x4)
    requires ParseRaw(x4) == Parsed(e.rawRecord, x5)
    ensures ParseEvent(x0) == Parsed(e, x5)
  {}

  lemma EventRegrouped(e: Event, rest: seq<u8>)
    ensures EventBytes(e) + rest
            == CitedBytes(Frame(e.eventId.value), e.eventId.locator)
               + (CitedBytes(Number(e.sequenceIndex.value), e.sequenceIndex.locator)
               + (CitedBytes(Frame(e.kind.value), e.kind.locator)
               + (SourceBytes(e.sourceItemId) + (RawBytes(e.rawRecord) + rest))))
  {}

  lemma ParsesEvent(e: Event, rest: seq<u8>)
    requires ValidEvent(e)
    ensures ParseEvent(EventBytes(e) + rest) == Parsed(e, rest)
  {
    var x4 := RawBytes(e.rawRecord) + rest;
    var x3 := SourceBytes(e.sourceItemId) + x4;
    var x2 := CitedBytes(Frame(e.kind.value), e.kind.locator) + x3;
    var x1 := CitedBytes(Number(e.sequenceIndex.value), e.sequenceIndex.locator) + x2;
    EventRegrouped(e, rest);
    ParsesCitedText(e.eventId, x1);
    ParsesCitedNumber(e.sequenceIndex, x2);
    ParsesCitedText(e.kind, x3);
    ParsesSource(e.sourceItemId, x4);
    ParsesRaw(e.rawRecord, rest);
    EventFromParts(EventBytes(e) + rest, x1, x2, x3, x4, rest, e);
  }

  lemma EventsFromParts(x0: seq<u8>, x1: seq<u8>, x2: seq<u8>, e: Event, es: seq<Event>, n: nat)
    requires ParseEvent(x0) == Parsed(e, x1) && ParseEvents(n, x1) == Parsed(es, x2)
    ensures ParseEvents(n + 1, x0) == Parsed([e] + es, x2)
  {}

  lemma EventsSplit(e: Event, es: seq<Event>, rest: seq<u8>)
    ensures EventsBytes([e] + es) + rest == EventBytes(e) + (EventsBytes(es) + rest)
  {}

  lemma {:induction false} ParsesEvents(events: seq<Event>, rest: seq<u8>)
    requires forall e :: e in events ==> ValidEvent(e)
    ensures ParseEvents(|events|, EventsBytes(events) + rest) == Parsed(events, rest)
  {
    if events == [] {
      assert EventsBytes(events) + rest == rest;
    } else {
      var e, es := events[0], events[1..];
      var tail := EventsBytes(es) + rest;
      assert events == [e] + es;
      ParsesEvents(es, rest);
      ParsesEvent(e, tail);
      EventsSplit(e, es, rest);
      EventsFromParts(EventBytes(e) + tail, tail, rest, e, es, |es|);
    }
  }

  lemma TraceFromParts(x0: seq<u8>, x1: seq<u8>, x2: seq<u8>, x3: seq<u8>, x4: seq<u8>, x5: seq<u8>, x6: seq<u8>,
                       rest: seq<u8>, t: Trace)
    requires ParseBinding(x0) == Parsed(t.schema, x1) && ParseCitedText(x1) == Parsed(t.runId, x2)
    requires ParseBinding(x2) == Parsed(t.adapter, x3) && ParseBinding(x3) == Parsed(t.policy, x4)
    requires ParseCapture(x4) == Parsed((t.recordCount, t.captureDigest), x5)
    requires ParseNumber(x5) == Parsed(|t.events|, x6) && ParseEvents(|t.events|, x6) == Parsed(t.events, rest)
    ensures ParseTrace(TRACE_MAGIC + x0) == Parsed(t, rest)
  {
    assert (TRACE_MAGIC + x0)[|TRACE_MAGIC|..] == x0;
  }

  lemma ParsesCapture(count: nat, digest: Text, rest: seq<u8>)
    requires count < LIMIT && Short(digest)
    ensures ParseCapture(Number(count) + (Frame(digest) + rest)) == Parsed((count, digest), rest)
  {
    ParsesNumber(count, Frame(digest) + rest);
    ParsesFrame(digest, rest);
  }

  /** Every well-formed trace is recovered from its encoding, whatever bytes follow it. */
  lemma ParsesTrace(t: Trace, rest: seq<u8>)
    requires ValidTrace(t)
    ensures ParseTrace(TraceBytes(t) + rest) == Parsed(t, rest)
  {
    var x6 := EventsBytes(t.events) + rest;
    var x5 := Number(|t.events|) + x6;
    var x4 := Number(t.recordCount) + (Frame(t.captureDigest) + x5);
    var x3 := BindingBytes(t.policy) + x4;
    var x2 := BindingBytes(t.adapter) + x3;
    var x1 := CitedBytes(Frame(t.runId.value), t.runId.locator) + x2;
    HeaderSplits(t, rest);
    ParsesBinding(t.schema, x1);
    ParsesCitedText(t.runId, x2);
    ParsesBinding(t.adapter, x3);
    ParsesBinding(t.policy, x4);
    ParsesCapture(t.recordCount, t.captureDigest, x5);
    ParsesNumber(|t.events|, x6);
    ParsesEvents(t.events, rest);
    TraceFromParts(BindingBytes(t.schema) + x1, x1, x2, x3, x4, x5, x6, rest, t);
  }

  lemma HeaderSplits(t: Trace, rest: seq<u8>)
    ensures TraceBytes(t) + rest
            == TRACE_MAGIC + (BindingBytes(t.schema) + (CitedBytes(Frame(t.runId.value), t.runId.locator)
               + (BindingBytes(t.adapter) + (BindingBytes(t.policy) + (Number(t.recordCount) + (Frame(t.captureDigest)
               + (Number(|t.events|) + (EventsBytes(t.events) + rest))))))))
  {
    var events := EventsBytes(t.events) + rest;
    Regroup3(HeaderBytes(t), EventsBytes(t.events), rest);
    Regroup9(TRACE_MAGIC, BindingBytes(t.schema), CitedBytes(Frame(t.runId.value), t.runId.locator),
             BindingBytes(t.adapter),
             BindingBytes(t.policy), Number(t.recordCount), Frame(t.captureDigest), Number(|t.events|), events);
  }

  /** No encoding is a prefix of another one, so the encoding is injective. */
  lemma EncodingIsPrefixFree(t: Trace, u: Trace, rest: seq<u8>, tail: seq<u8>)
    requires ValidTrace(t) && ValidTrace(u) && TraceBytes(t) + rest == TraceBytes(u) + tail
    ensures t == u && rest == tail
  {
    ParsesTrace(t, rest);
    ParsesTrace(u, tail);
  }
}
