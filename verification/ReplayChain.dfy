/** The framed hash and the replay chain over a trace. The hash itself is a parameter with 32-byte results; nothing is
    assumed of it beyond the absence of a collision among the payloads that the compared replays hash. */
module ReplayChain {
  import opened Bytes
  import opened CanonicalTrace

  type Hash = seq<u8> -> seq<u8>

  const TRACE_DOMAIN := Ascii("legitimacy.trajectory.trace.v0")
  const GENESIS_DOMAIN := Ascii("legitimacy.trajectory.replay.genesis.v0")
  const EVENT_DOMAIN := Ascii("legitimacy.trajectory.replay.canonical-event.v0")
  const STEP_DOMAIN := Ascii("legitimacy.trajectory.replay.chain-step.v0")
  const DIGEST_PREFIX := Ascii("sha256:")

  ghost predicate DigestsAre32(h: Hash) {
    forall x :: |h(x)| == 32
  }

  function HexDigit(n: nat): u8
    requires n < 16
  {
    if n < 10 then (48 + n) as u8 else (87 + n) as u8
  }

  function Hex(bytes: seq<u8>): (r: seq<u8>)
    ensures |r| == 2 * |bytes|
  {
    if bytes == [] then []
    else
      var last := bytes[|bytes| - 1] as nat;
      Hex(bytes[..|bytes| - 1]) + [HexDigit(last / 16), HexDigit(last % 16)]
  }

  function Digest(h: Hash, domain: Text, components: seq<seq<u8>>): Text {
    DIGEST_PREFIX + Hex(h(Payload(domain, components)))
  }

  lemma {:induction false} HexInjective(a: seq<u8>, b: seq<u8>)
    requires Hex(a) == Hex(b)
    ensures a == b
  {
    assert |a| == |b|;
    if a != [] {
      var m := |a| - 1;
      assert Hex(a)[..2 * m] == Hex(a[..m]) && Hex(b)[..2 * m] == Hex(b[..m]);
      HexInjective(a[..m], b[..m]);
      assert Hex(a)[2 * m] == HexDigit(a[m] as nat / 16) && Hex(a)[2 * m + 1] == HexDigit(a[m] as nat % 16);
      assert Hex(b)[2 * m] == HexDigit(b[m] as nat / 16) && Hex(b)[2 * m + 1] == HexDigit(b[m] as nat % 16);
      assert a == a[..m] + [a[m]] && b == b[..m] + [b[m]];
    }
  }

  lemma DigestInjective(h: Hash, d: Text, c: seq<seq<u8>>, e: Text, f: seq<seq<u8>>)
    requires Digest(h, d, c) == Digest(h, e, f)
    ensures h(Payload(d, c)) == h(Payload(e, f))
  {
    var n := |DIGEST_PREFIX|;
    assert Digest(h, d, c)[n..] == Hex(h(Payload(d, c)));
    assert Digest(h, e, f)[n..] == Hex(h(Payload(e, f)));
    HexInjective(h(Payload(d, c)), h(Payload(e, f)));
  }

  // ---- the hashed payload determines the domain and the components

  predicate AllShort(components: seq<seq<u8>>) {
    |components| < LIMIT && forall c :: c in components ==> Short(c)
  }

  lemma {:induction false} FramesInjective(a: seq<seq<u8>>, b: seq<seq<u8>>)
    requires |a| == |b| && AllShort(a) && AllShort(b) && Frames(a) == Frames(b)
    ensures a == b
  {
    if a != [] {
      ParsesFrame(a[0], Frames(a[1..]));
      ParsesFrame(b[0], Frames(b[1..]));
      FramesInjective(a[1..], b[1..]);
      assert a == [a[0]] + a[1..] && b == [b[0]] + b[1..];
    }
  }

  lemma PayloadInjective(d: Text, a: seq<seq<u8>>, e: Text, b: seq<seq<u8>>)
    requires Short(d) && Short(e) && AllShort(a) && AllShort(b) && Payload(d, a) == Payload(e, b)
    ensures d == e && a == b
  {
    var x, y := Number(|a|) + Frames(a), Number(|b|) + Frames(b);
    var n := |HASH_ENVELOPE|;
    PayloadSplits(d, a);
    PayloadSplits(e, b);
    assert (HASH_ENVELOPE + (Frame(d) + x))[n..] == Frame(d) + x;
    assert (HASH_ENVELOPE + (Frame(e) + y))[n..] == Frame(e) + y;
    ParsesFrame(d, x);
    ParsesFrame(e, y);
    ParsesNumber(|a|, Frames(a));
    ParsesNumber(|b|, Frames(b));
    FramesInjective(a, b);
  }

  lemma PayloadSplits(d: Text, a: seq<seq<u8>>)
    ensures Payload(d, a) == HASH_ENVELOPE + (Frame(d) + (Number(|a|) + Frames(a)))
  {
    Regroup3(HASH_ENVELOPE + Frame(d), Number(|a|), Frames(a));
    Regroup3(HASH_ENVELOPE, Frame(d), Number(|a|) + Frames(a));
  }

  // ---- the replay

  function TrajectoryDigest(h: Hash, t: Trace): Text { Digest(h, TRACE_DOMAIN, [TraceBytes(t)]) }

  function GenesisComponents(h: Hash, t: Trace): seq<seq<u8>> {
    [Ascii("legitimacy.trajectory.replay"), Ascii("0"),
     t.schema.identity, t.schema.version, t.schema.hash,
     t.adapter.identity, t.adapter.version, t.adapter.hash,
     t.policy.identity, t.policy.version, t.policy.hash,
     Number(t.recordCount), t.captureDigest, TrajectoryDigest(h, t), Number(|t.events|)]
  }

  function Genesis(h: Hash, t: Trace): Text { Digest(h, GENESIS_DOMAIN, GenesisComponents(h, t)) }

  function EventDigest(h: Hash, e: Event): Text { Digest(h, EVENT_DOMAIN, [EventBytes(e)]) }

  /** What the replay folds over: the genesis digest, and the events with their digests. */
  datatype Chain = Chain(genesis: Text, events: seq<Event>, digests: seq<Text>)

  function ChainOf(h: Hash, t: Trace): (c: Chain)
    ensures |c.digests| == |c.events|
  {
    Chain(Genesis(h, t), t.events, seq(|t.events|, n requires 0 <= n < |t.events| => EventDigest(h, t.events[n])))
  }

  function StepComponents(previous: Text, e: Event, digest: Text): seq<seq<u8>> {
    [previous, Number(e.sequenceIndex.value), e.eventId.value, e.rawRecord.digest, digest]
  }

  /** The head of the chain after the first `n` events. */
  function Head(h: Hash, c: Chain, n: nat): Text
    requires n <= |c.events| == |c.digests|
  {
    if n == 0 then c.genesis
    else Digest(h, STEP_DOMAIN, StepComponents(Head(h, c, n - 1), c.events[n - 1], c.digests[n - 1]))
  }

  function ReplayHead(h: Hash, t: Trace): Text { Head(h, ChainOf(h, t), |t.events|) }

  // ---- the payloads of a replay

  predicate Hashable(t: Trace) { ValidTrace(t) && Short(TraceBytes(t)) }

  function TracePayload(t: Trace): seq<u8> { Payload(TRACE_DOMAIN, [TraceBytes(t)]) }

  function GenesisPayload(h: Hash, t: Trace): seq<u8> { Payload(GENESIS_DOMAIN, GenesisComponents(h, t)) }

  function StepPayload(h: Hash, c: Chain, n: nat): seq<u8>
    requires n < |c.events| == |c.digests|
  {
    Payload(STEP_DOMAIN, StepComponents(Head(h, c, n), c.events[n], c.digests[n]))
  }

  ghost function StepPayloads(h: Hash, c: Chain): iset<seq<u8>>
    requires |c.events| == |c.digests|
  {
    iset n | 0 <= n < |c.events| :: StepPayload(h, c, n)
  }

  /** What is hashed on the way from the trace to its replay head. */
  ghost function Payloads(h: Hash, t: Trace): iset<seq<u8>> {
    iset{TracePayload(t), GenesisPayload(h, t)} + StepPayloads(h, ChainOf(h, t))
  }

  /** No payload of one set collides with a payload of the other. */
  ghost predicate CollisionFree(h: Hash, x: iset<seq<u8>>, y: iset<seq<u8>>) {
    forall a, b :: a in x && b in y && h(a) == h(b) ==> a == b
  }

  lemma CollisionFreeIsSymmetric(h: Hash, x: iset<seq<u8>>, y: iset<seq<u8>>)
    requires CollisionFree(h, x, y)
    ensures CollisionFree(h, y, x)
  {}

  lemma DomainsDiffer()
    ensures GENESIS_DOMAIN != STEP_DOMAIN
    ensures Short(GENESIS_DOMAIN) && Short(STEP_DOMAIN) && Short(TRACE_DOMAIN) && Short(EVENT_DOMAIN)
  {}

  lemma DigestIsShort(h: Hash, d: Text, c: seq<seq<u8>>)
    requires DigestsAre32(h)
    ensures |Digest(h, d, c)| == 71
  {}

  lemma LinksAgree(h: Hash, d: Text, a: seq<seq<u8>>, e: Text, b: seq<seq<u8>>, x: iset<seq<u8>>, y: iset<seq<u8>>)
    requires CollisionFree(h, x, y) && Payload(d, a) in x && Payload(e, b) in y
    requires Short(d) && Short(e) && AllShort(a) && AllShort(b) && Digest(h, d, a) == Digest(h, e, b)
    ensures d == e && a == b
  {
    DigestInjective(h, d, a, e, b);
    PayloadInjective(d, a, e, b);
  }

  // ---- chains

  /** The events and their digests fit the frames of a step. */
  ghost predicate ShortChain(c: Chain) {
    && |c.events| == |c.digests| && Short(c.genesis)
    && (forall n | 0 <= n < |c.digests| :: Short(c.digests[n]))
    && forall n | 0 <= n < |c.events| :: Short(c.events[n].eventId.value) && Short(c.events[n].rawRecord.digest)
  }

  /** One step: its payload, its digest, and that its components fit. */
  lemma StepFacts(h: Hash, c: Chain, n: nat, previous: Text)
    requires DigestsAre32(h) && ShortChain(c) && n < |c.events| && previous == Head(h, c, n)
    ensures Head(h, c, n + 1) == Digest(h, STEP_DOMAIN, StepComponents(previous, c.events[n], c.digests[n]))
    ensures Payload(STEP_DOMAIN, StepComponents(previous, c.events[n], c.digests[n])) in StepPayloads(h, c)
    ensures AllShort(StepComponents(previous, c.events[n], c.digests[n]))
  {
    assert StepPayload(h, c, n) in StepPayloads(h, c);
    if n > 0 {
      DigestIsShort(h, STEP_DOMAIN, StepComponents(Head(h, c, n - 1), c.events[n - 1], c.digests[n - 1]));
    }
  }

  lemma StepsMeet(h: Hash, c: Chain, d: Chain, m: nat, n: nat, p: Text, q: Text, x: iset<seq<u8>>, y: iset<seq<u8>>)
    requires DigestsAre32(h) && ShortChain(c) && ShortChain(d) && CollisionFree(h, x, y)
    requires StepPayloads(h, c) <= x && StepPayloads(h, d) <= y
    requires m < |c.events| && n < |d.events| && p == Head(h, c, m) && q == Head(h, d, n)
    requires Head(h, c, m + 1) == Head(h, d, n + 1)
    ensures p == q
  {
    var a, b := StepComponents(p, c.events[m], c.digests[m]), StepComponents(q, d.events[n], d.digests[n]);
    DomainsDiffer();
    StepFacts(h, c, m, p);
    StepFacts(h, d, n, q);
    LinksAgree(h, STEP_DOMAIN, a, STEP_DOMAIN, b, x, y);
    assert a[0] == b[0];
  }

  /** The chain starts from a genesis digest whose payload is among those given. */
  ghost predicate Rooted(h: Hash, c: Chain, components: seq<seq<u8>>, x: iset<seq<u8>>) {
    && ShortChain(c) && StepPayloads(h, c) <= x && AllShort(components)
    && c.genesis == Digest(h, GENESIS_DOMAIN, components) && Payload(GENESIS_DOMAIN, components) in x
  }

  /** A step never produces a genesis digest. */
  lemma StepIsNoGenesis(h: Hash, c: Chain, m: nat, x: iset<seq<u8>>, d: Chain, g: seq<seq<u8>>, y: iset<seq<u8>>)
    requires DigestsAre32(h) && ShortChain(c) && StepPayloads(h, c) <= x && Rooted(h, d, g, y) && CollisionFree(h, x, y)
    requires m < |c.events|
    ensures Head(h, c, m + 1) != d.genesis
  {
    DomainsDiffer();
    if Head(h, c, m + 1) == d.genesis {
      StepFacts(h, c, m, Head(h, c, m));
      LinksAgree(h, STEP_DOMAIN, StepComponents(Head(h, c, m), c.events[m], c.digests[m]), GENESIS_DOMAIN, g, x, y);
    }
  }

  ghost predicate Meet(h: Hash, c: Chain, m: nat, d: Chain, n: nat)
    requires |c.events| == |c.digests| && |d.events| == |d.digests|
  {
    m <= |c.events| && n <= |d.events| && Head(h, c, m) == Head(h, d, n)
  }

  lemma BothOrNeither(h: Hash, c: Chain, f: seq<seq<u8>>, x: iset<seq<u8>>, m: nat,
                      d: Chain, g: seq<seq<u8>>, y: iset<seq<u8>>, n: nat)
    requires DigestsAre32(h) && Rooted(h, c, f, x) && Rooted(h, d, g, y) && CollisionFree(h, x, y)
    requires Meet(h, c, m, d, n)
    ensures m == 0 <==> n == 0
  {
    CollisionFreeIsSymmetric(h, x, y);
    if n == 0 { MeetsAtStart(h, c, m, x, d, g, y); }
    if m == 0 { MeetsAtStart(h, d, n, y, c, f, x); }
  }

  lemma MeetsAtStart(h: Hash, c: Chain, m: nat, x: iset<seq<u8>>, d: Chain, g: seq<seq<u8>>, y: iset<seq<u8>>)
    requires DigestsAre32(h) && ShortChain(c) && StepPayloads(h, c) <= x && Rooted(h, d, g, y) && CollisionFree(h, x, y)
    requires Meet(h, c, m, d, 0)
    ensures m == 0
  {
    if m > 0 {
      StepIsNoGenesis(h, c, m - 1, x, d, g, y);
    }
  }

  /** `i` and `j` are the lengths one step earlier. */
  lemma StepBack(h: Hash, c: Chain, x: iset<seq<u8>>, m: nat, d: Chain, y: iset<seq<u8>>, n: nat)
    returns (i: nat, j: nat)
    requires DigestsAre32(h) && ShortChain(c) && ShortChain(d) && CollisionFree(h, x, y)
    requires StepPayloads(h, c) <= x && StepPayloads(h, d) <= y
    requires m > 0 && n > 0 && Meet(h, c, m, d, n)
    ensures m == i + 1 && n == j + 1 && Meet(h, c, i, d, j)
  {
    i, j := m - 1, n - 1;
    StepsMeet(h, c, d, i, j, Head(h, c, i), Head(h, d, j), x, y);
  }

  /** A chain of one length never meets a chain of another length, and chains that meet started from one genesis. */
  lemma {:induction false} ChainsMeetAtGenesis(h: Hash, c: Chain, f: seq<seq<u8>>, x: iset<seq<u8>>, m: nat,
                                               d: Chain, g: seq<seq<u8>>, y: iset<seq<u8>>, n: nat)
    requires DigestsAre32(h) && Rooted(h, c, f, x) && Rooted(h, d, g, y) && CollisionFree(h, x, y)
    requires Meet(h, c, m, d, n)
    ensures m == n && c.genesis == d.genesis
    decreases m
  {
    BothOrNeither(h, c, f, x, m, d, g, y, n);
    if m > 0 {
      var i, j := StepBack(h, c, x, m, d, y, n);
      ChainsMeetAtGenesis(h, c, f, x, i, d, g, y, j);
    }
  }

  // ---- the head binds the trace

  lemma {:induction false} EventIsShort(events: seq<Event>, e: Event)
    requires e in events
    ensures |EventBytes(e)| <= |EventsBytes(events)|
  {
    if e != events[0] {
      EventIsShort(events[1..], e);
    }
  }

  lemma GenesisIsShort(h: Hash, t: Trace)
    requires DigestsAre32(h) && Hashable(t)
    ensures AllShort(GenesisComponents(h, t))
  {}

  lemma TraceIsRooted(h: Hash, t: Trace)
    requires DigestsAre32(h) && Hashable(t)
    ensures Rooted(h, ChainOf(h, t), GenesisComponents(h, t), Payloads(h, t))
  {
    GenesisIsShort(h, t);
    DigestIsShort(h, GENESIS_DOMAIN, GenesisComponents(h, t));
    forall n | 0 <= n < |t.events|
      ensures |ChainOf(h, t).digests[n]| == 71 && Short(t.events[n].eventId.value)
              && Short(t.events[n].rawRecord.digest)
    {
      assert t.events[n] in t.events;
      DigestIsShort(h, EVENT_DOMAIN, [EventBytes(t.events[n])]);
    }
  }

  lemma GenesisBindsTrace(h: Hash, t: Trace, u: Trace)
    requires DigestsAre32(h) && Hashable(t) && Hashable(u) && CollisionFree(h, Payloads(h, t), Payloads(h, u))
    requires Genesis(h, t) == Genesis(h, u)
    ensures t == u
  {
    var ct, cu := GenesisComponents(h, t), GenesisComponents(h, u);
    GenesisIsShort(h, t);
    GenesisIsShort(h, u);
    DomainsDiffer();
    assert GenesisPayload(h, t) in Payloads(h, t) && GenesisPayload(h, u) in Payloads(h, u);
    LinksAgree(h, GENESIS_DOMAIN, ct, GENESIS_DOMAIN, cu, Payloads(h, t), Payloads(h, u));
    assert ct[13] == cu[13];
    TrajectoryBindsTrace(h, t, u);
  }

  lemma TrajectoryBindsTrace(h: Hash, t: Trace, u: Trace)
    requires Hashable(t) && Hashable(u) && CollisionFree(h, Payloads(h, t), Payloads(h, u))
    requires TrajectoryDigest(h, t) == TrajectoryDigest(h, u)
    ensures t == u
  {
    DomainsDiffer();
    assert TracePayload(t) in Payloads(h, t) && TracePayload(u) in Payloads(h, u);
    LinksAgree(h, TRACE_DOMAIN, [TraceBytes(t)], TRACE_DOMAIN, [TraceBytes(u)], Payloads(h, t), Payloads(h, u));
    assert [TraceBytes(t)][0] == [TraceBytes(u)][0];
    EncodingIsPrefixFree(t, u, [], []);
  }

  /** Two traces with the same replay head are the same trace, unless the hash collides on the way. */
  lemma HeadBindsTrace(h: Hash, t: Trace, u: Trace)
    requires DigestsAre32(h) && Hashable(t) && Hashable(u) && CollisionFree(h, Payloads(h, t), Payloads(h, u))
    ensures ReplayHead(h, t) == ReplayHead(h, u) <==> t == u
  {
    if ReplayHead(h, t) == ReplayHead(h, u) {
      TraceIsRooted(h, t);
      TraceIsRooted(h, u);
      ChainsMeetAtGenesis(h, ChainOf(h, t), GenesisComponents(h, t), Payloads(h, t), |t.events|,
                          ChainOf(h, u), GenesisComponents(h, u), Payloads(h, u), |u.events|);
      GenesisBindsTrace(h, t, u);
    }
  }

  // ---- the procedures

  method FramedSha256(h: Hash, domain: Text, components: seq<seq<u8>>) returns (digest: Text)
    requires Short(domain) && AllShort(components)
    ensures digest == Digest(h, domain, components)
  {
    var payload := HASH_ENVELOPE + Frame(domain) + Number(|components|);
    var joined: seq<u8> := [];
    for n := 0 to |components|
      invariant joined + Frames(components[n..]) == Frames(components)
    {
      Regroup3(joined, Frame(components[n]), Frames(components[n + 1..]));
      assert components[n..][1..] == components[n + 1..];
      joined := joined + Frame(components[n]);
    }
    assert joined + [] == joined;
    payload := payload + joined;
    digest := DIGEST_PREFIX + Hex(h(payload));
  }

  method CanonicalEvent(e: Event) returns (output: seq<u8>)
    requires ValidEvent(e)
    ensures output == EventBytes(e)
  {
    output := CitedBytes(Frame(e.eventId.value), e.eventId.locator);
    output := output + CitedBytes(Number(e.sequenceIndex.value), e.sequenceIndex.locator);
    output := output + CitedBytes(Frame(e.kind.value), e.kind.locator);
    if e.sourceItemId.None? {
      output := output + [0];
    } else {
      output := output + ([1] + CitedBytes(Frame(e.sourceItemId.value.value), e.sourceItemId.value.locator));
    }
    output := output + Number(e.rawRecord.recordIndex);
    output := output + Frame(e.rawRecord.digest);
    output := output + Number(0);
  }

  method CanonicalDigests(h: Hash, events: seq<Event>) returns (digests: seq<Text>)
    requires forall e :: e in events ==> ValidEvent(e) && Short(EventBytes(e))
    ensures |digests| == |events| && forall n :: 0 <= n < |events| ==> digests[n] == EventDigest(h, events[n])
  {
    digests := [];
    assert Short(EVENT_DOMAIN);
    for n := 0 to |events|
      invariant |digests| == n
      invariant forall m :: 0 <= m < n ==> digests[m] == EventDigest(h, events[m])
    {
      assert events[n] in events;
      var event := CanonicalEvent(events[n]);
      var digest := FramedSha256(h, EVENT_DOMAIN, [event]);
      digests := digests + [digest];
    }
  }

  method ReplayValues(h: Hash, t: Trace) returns (trajectory: Text, canonicalDigests: seq<Text>, head: Text)
    requires DigestsAre32(h) && Hashable(t)
    ensures trajectory == TrajectoryDigest(h, t)
    ensures |canonicalDigests| == |t.events|
    ensures forall n :: 0 <= n < |t.events| ==> canonicalDigests[n] == EventDigest(h, t.events[n])
    ensures head == ReplayHead(h, t)
  {
    DomainsDiffer();
    trajectory := FramedSha256(h, TRACE_DOMAIN, [TraceBytes(t)]);
    GenesisIsShort(h, t);
    var genesis := FramedSha256(h, GENESIS_DOMAIN, GenesisComponents(h, t));
    forall e | e in t.events ensures Short(EventBytes(e)) {
      EventIsShort(t.events, e);
    }
    canonicalDigests := CanonicalDigests(h, t.events);
    TraceIsRooted(h, t);
    assert canonicalDigests == ChainOf(h, t).digests;
    head := ChainHead(h, Chain(genesis, t.events, canonicalDigests));
  }

  /** The loop over the events that extends the chain from its genesis. */
  method ChainHead(h: Hash, c: Chain) returns (head: Text)
    requires DigestsAre32(h) && ShortChain(c)
    ensures head == Head(h, c, |c.events|)
  {
    DomainsDiffer();
    head := c.genesis;
    for n := 0 to |c.events|
      invariant head == Head(h, c, n)
    {
      StepFacts(h, c, n, head);
      head := FramedSha256(h, STEP_DOMAIN, StepComponents(head, c.events[n], c.digests[n]));
    }
  }
}
