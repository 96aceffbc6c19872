/** Learned ECS-invariant sharing: which missing-ECS answers may be stored once
    for a whole address family, and when that stops. */
module Sharing {
  import opened Wrappers
  import opened Networks
  import opened Scopes
  import opened CacheTypes
  import opened Sequences

  const SHARED_MAX_AGE: nat := 3600 * SECOND
  const MAX_RECORDS: nat := 65_536

  /** A digest of the normalized answer. */
  type Fingerprint = nat

  datatype Sample = Sample(network: Net, expires: nat)

  datatype Phase =
    | Observing(fingerprint: Fingerprint, samples: seq<Sample>)
    | Shared(fingerprint: Fingerprint, since: nat)
    | Revoked(until: nat)

  datatype Class = Class(key: Key, ipv4: bool)

  datatype SharingConfig = SharingConfig(minNetworks: nat, cooldown: nat)

  predicate ValidSharing(c: SharingConfig) {
    2 <= c.minNetworks <= 64 && 60 * SECOND <= c.cooldown
  }

  /** Records per shard. */
  function TableCapacity(maxEntries: nat, shards: nat): nat
    requires shards > 0
  {
    (Max(1024, Min(2 * maxEntries, MAX_RECORDS)) + shards - 1) / shards
  }

  /** The records of all shards together: twice the entries, between 1024 and 65536,
      and less than one more for each shard. */
  lemma TablesTogether(maxEntries: nat, shards: nat)
    requires shards > 0
    ensures var n := TableCapacity(maxEntries, shards);
      var target := if 2 * maxEntries < 1024 then 1024 else if 2 * maxEntries > 65536 then 65536 else 2 * maxEntries;
      target <= n * shards < target + shards
  {
    var target := if 2 * maxEntries < 1024 then 1024 else if 2 * maxEntries > 65536 then 65536 else 2 * maxEntries;
    var up := target + shards - 1;
    assert TableCapacity(maxEntries, shards) == up / shards;
    assert up / shards * shards + up % shards == up;
  }

  function SpanBits(n: Net): nat {
    if IsIpv4(n.addr) then 16 else 32
  }

  /** The wider block a sample speaks for. */
  function Span(n: Net): Net {
    Trunc(Net(n.addr, Min(n.prefix, SpanBits(n))))
  }

  predicate Promotable(samples: seq<Sample>, min: nat) {
    && |samples| >= min
    && samples != []
    && exists i :: 0 <= i < |samples| && Span(samples[i].network) != Span(samples[0].network)
  }

  /** Samples still valid at `now`. */
  function Unexpired(samples: seq<Sample>, now: nat): (r: seq<Sample>)
    ensures |r| <= |samples|
    ensures forall x :: x in r <==> x in samples && x.expires > now
  {
    if samples == [] then []
    else (if samples[0].expires > now then [samples[0]] else []) + Unexpired(samples[1..], now)
  }

  /** Samples that share no address with `network`. */
  function Apart(samples: seq<Sample>, network: Net): (r: seq<Sample>)
    ensures |r| <= |samples|
    ensures forall x :: x in r <==> x in samples && !NetsOverlap(x.network, network)
  {
    if samples == [] then []
    else
      (if NetsOverlap(samples[0].network, network) then [] else [samples[0]]) + Apart(samples[1..], network)
  }

  /** The first sample with the least expiry. */
  function Oldest(samples: seq<Sample>): (i: nat)
    requires samples != []
    ensures i < |samples|
    ensures forall j :: 0 <= j < |samples| ==> samples[i].expires <= samples[j].expires
  {
    if |samples| == 1 then 0
    else
      var k := Oldest(samples[..|samples| - 1]);
      if samples[|samples| - 1].expires < samples[k].expires then |samples| - 1 else k
  }

  /** Removal that fills the gap with the last element. */
  function SwapRemove(samples: seq<Sample>, i: nat): seq<Sample>
    requires i < |samples|
  {
    var n := |samples| - 1;
    if i == n then samples[..n] else samples[..n][i := samples[n]]
  }

  ghost predicate PairwiseDisjoint(samples: seq<Sample>) {
    forall i, j :: 0 <= i < j < |samples| ==> !NetsOverlap(samples[i].network, samples[j].network)
  }

  /** One answer that took part in learning. */
  datatype Observation = Observation(
    class_: Class,
    network: Net,
    explicitScope: bool,
    fingerprint: Option<Fingerprint>,
    at: nat,
    expires: Option<nat>)

  /** The answer agrees with what `fp` stands for. */
  predicate Agrees(o: Observation, fp: Fingerprint) {
    !o.explicitScope && o.fingerprint == Some(fp)
  }

  /** No answer of the class after `k` and before `end` disagreed with `fp`. */
  ghost predicate Uncontradicted(history: seq<Observation>, c: Class, fp: Fingerprint, k: nat, end: nat) {
    forall j :: k <= j < |history| && history[j].class_ == c && history[j].at < end ==> Agrees(history[j], fp)
  }

  /** Observation `k` is where a sample comes from, and nothing contradicted it
      while it was valid. */
  ghost predicate Supports(history: seq<Observation>, c: Class, fp: Fingerprint, s: Sample, k: nat) {
    && k < |history|
    && history[k].class_ == c
    && history[k].network == s.network
    && history[k].expires == Some(s.expires)
    && Agrees(history[k], fp)
    && Uncontradicted(history, c, fp, k, s.expires)
  }

  ghost predicate Evidence(history: seq<Observation>, c: Class, fp: Fingerprint, s: Sample) {
    exists k :: Supports(history, c, fp, s, k)
  }

  ghost predicate AllEvidence(history: seq<Observation>, c: Class, fp: Fingerprint, samples: seq<Sample>) {
    forall s :: s in samples ==> Evidence(history, c, fp, s)
  }

  /** Observation `p` promoted the class: at that moment `evidence` held enough
      disjoint unexpired networks of two spans, and nothing contradicted the
      shared answer since. */
  ghost predicate Promotion(cfg: SharingConfig, history: seq<Observation>, c: Class, fp: Fingerprint, since: nat,
                            p: nat, evidence: seq<Sample>)
  {
    && p < |history|
    && history[p].class_ == c
    && history[p].at == since
    && |evidence| >= cfg.minNetworks
    && PairwiseDisjoint(evidence)
    && Promotable(evidence, cfg.minNetworks)
    && (forall s :: s in evidence ==> s.expires > since)
    && AllEvidence(history[..p + 1], c, fp, evidence)
    && Uncontradicted(history, c, fp, p, since + SHARED_MAX_AGE)
  }

  ghost predicate Promoted(cfg: SharingConfig, history: seq<Observation>, c: Class, fp: Fingerprint, since: nat) {
    exists p, evidence :: Promotion(cfg, history, c, fp, since, p, evidence)
  }

  /** What each record may claim about the past. */
  ghost predicate Backed(cfg: SharingConfig, history: seq<Observation>, c: Class, phase: Phase) {
    match phase
    case Observing(fp, samples) =>
      && |samples| <= cfg.minNetworks
      && PairwiseDisjoint(samples)
      && AllEvidence(history, c, fp, samples)
    case Shared(fp, since) => Promoted(cfg, history, c, fp, since)
    case Revoked(_) => true
  }

  lemma SupportsExtends(history: seq<Observation>, o: Observation, c: Class, fp: Fingerprint, s: Sample, k: nat)
    requires Supports(history, c, fp, s, k)
    requires o.class_ == c && o.at < s.expires ==> Agrees(o, fp)
    ensures Supports(history + [o], c, fp, s, k)
  {
  }

  lemma EvidenceExtends(history: seq<Observation>, o: Observation, c: Class, fp: Fingerprint, samples: seq<Sample>)
    requires AllEvidence(history, c, fp, samples)
    requires forall s :: s in samples && o.class_ == c && o.at < s.expires ==> Agrees(o, fp)
    ensures AllEvidence(history + [o], c, fp, samples)
  {
    forall s | s in samples
      ensures Evidence(history + [o], c, fp, s)
    {
      var k :| Supports(history, c, fp, s, k);
      SupportsExtends(history, o, c, fp, s, k);
    }
  }

  lemma PromotedExtends(cfg: SharingConfig, history: seq<Observation>, o: Observation, c: Class, fp: Fingerprint,
                        since: nat)
    requires Promoted(cfg, history, c, fp, since)
    requires o.class_ == c && o.at < since + SHARED_MAX_AGE ==> Agrees(o, fp)
    ensures Promoted(cfg, history + [o], c, fp, since)
  {
    var p, evidence :| Promotion(cfg, history, c, fp, since, p, evidence);
    assert (history + [o])[..p + 1] == history[..p + 1];
    assert Promotion(cfg, history + [o], c, fp, since, p, evidence);
  }

  /** An answer of one class says nothing about the records of another. */
  lemma OtherClassUntouched(cfg: SharingConfig, history: seq<Observation>, o: Observation, c: Class, phase: Phase)
    requires Backed(cfg, history, c, phase) && o.class_ != c
    ensures Backed(cfg, history + [o], c, phase)
  {
    match phase
    case Observing(fp, samples) => EvidenceExtends(history, o, c, fp, samples);
    case Shared(fp, since) => PromotedExtends(cfg, history, o, c, fp, since);
    case Revoked(_) =>
  }

  /** Two networks that share no address, in different blocks: the blocks share none
      either, so no block that decides a promotion contains another. */
  lemma UnequalSpansAreDisjoint(a: Net, b: Net)
    requires !NetsOverlap(a, b) && Span(a) != Span(b)
    ensures !NetsOverlap(Span(a), Span(b))
  {
    if NetsOverlap(Span(a), Span(b)) {
      OverlapNests(Span(a), Span(b));
      if Subnet(Span(a), Span(b)) {
        NestedSpans(a, b);
      } else {
        NestedSpans(b, a);
      }
    }
  }

  lemma NestedSpans(a: Net, b: Net)
    requires Subnet(Span(a), Span(b)) && Span(a) != Span(b)
    ensures NetsOverlap(a, b)
  {
    var wide := Span(b);
    if wide.prefix == Span(a).prefix {
      TruncedSame(Span(a), wide, Span(a).addr);
    } else {
      // A shorter span than its neighbour's is the whole network itself.
      assert b.prefix == wide.prefix;
      assert Contains(Span(a), a.addr);
      SharedAddressNests(Span(a), wide, Span(a).addr);
      assert a.addr[..Span(a).prefix][..wide.prefix] == a.addr[..wide.prefix];
      assert Span(a).addr[..Span(a).prefix][..wide.prefix] == Span(a).addr[..wide.prefix];
      assert Contains(wide, a.addr);
      assert Contains(b, a.addr);
    }
  }

  /** The samples after one more agreeing answer: nested prefixes count once,
      and a full list gives up the sample that expires first. */
  function NextSamples(samples: seq<Sample>, sample: Sample, min: nat): seq<Sample> {
    var apart := Apart(samples, sample.network);
    var room := if |apart| >= min && apart != [] then SwapRemove(apart, Oldest(apart)) else apart;
    room + [sample]
  }

  /** A full list gives up the sample that expires first, and nothing else but what
      the new network overlaps. */
  lemma NextSamplesKeep(samples: seq<Sample>, sample: Sample, min: nat)
    ensures var next, apart := NextSamples(samples, sample, min), Apart(samples, sample.network);
      && sample in next
      && (forall x :: x in next ==> x == sample || x in apart)
      && (|apart| < min ==> forall x :: x in apart ==> x in next)
      && (forall x, y :: x in apart && x !in next && y in next && y != sample ==> x.expires <= y.expires)
      && (0 < min <= |apart| ==> |next| == |apart|)
  {
    hide NetsOverlap;
    var apart := Apart(samples, sample.network);
    if |apart| >= min && apart != [] {
      var i := Oldest(apart);
      var room := SwapRemove(apart, i);
      assert forall x :: x in room ==> x in apart by { SwapRemoveFrom(apart, i); }
      SwapRemoveLeaves(apart, i);
    }
  }

  lemma SwapRemoveFrom(samples: seq<Sample>, i: nat)
    requires i < |samples|
    ensures forall x :: x in SwapRemove(samples, i) ==> x in samples
  {
  }

  lemma SwapRemoveLeaves(samples: seq<Sample>, i: nat)
    requires i < |samples|
    ensures forall x :: x in samples && x != samples[i] ==> x in SwapRemove(samples, i)
  {
    var n := |samples| - 1;
    var room := SwapRemove(samples, i);
    forall x | x in samples && x != samples[i] ensures x in room {
      var j :| 0 <= j < |samples| && samples[j] == x;
      if j == n {
        assert room[i] == x;
      } else {
        assert room[j] == x;
      }
    }
  }

  /** The block a network speaks for: its first sixteen bits, or thirty-two of IPv6. */
  lemma SpanIff(a: Net, b: Net)
    ensures var w := if |a.addr| == 32 then 16 else 32;
      Span(a) == Span(b) <==>
        && |a.addr| == |b.addr| && Min(a.prefix, w) == Min(b.prefix, w)
        && a.addr[..Min(a.prefix, w)] == b.addr[..Min(a.prefix, w)]
  {
    var w := if |a.addr| == 32 then 16 else 32;
    if Span(a) == Span(b) {
      var k := Min(a.prefix, w);
      assert Contains(Span(a), a.addr) && Contains(Span(b), b.addr);
      assert a.addr[..k] == Span(a).addr[..k] == b.addr[..k];
    }
    if |a.addr| == |b.addr| && Min(a.prefix, w) == Min(b.prefix, w) {
      var k := Min(a.prefix, w);
      if a.addr[..k] == b.addr[..k] {
        TruncedSame(Span(a), Span(b), a.addr);
      }
    }
  }

  lemma {:induction false} UnexpiredDisjoint(samples: seq<Sample>, now: nat)
    requires PairwiseDisjoint(samples)
    ensures PairwiseDisjoint(Unexpired(samples, now))
  {
    if samples != [] {
      assert samples == [samples[0]] + samples[1..];
      UnexpiredDisjoint(samples[1..], now);
      DisjointCons(samples[0], samples[1..], Unexpired(samples[1..], now));
    }
  }

  lemma {:induction false} ApartDisjoint(samples: seq<Sample>, network: Net)
    requires PairwiseDisjoint(samples)
    ensures PairwiseDisjoint(Apart(samples, network))
  {
    if samples != [] {
      assert samples == [samples[0]] + samples[1..];
      ApartDisjoint(samples[1..], network);
      DisjointCons(samples[0], samples[1..], Apart(samples[1..], network));
    }
  }

  lemma DisjointCons(s: Sample, rest: seq<Sample>, kept: seq<Sample>)
    requires PairwiseDisjoint([s] + rest) && PairwiseDisjoint(kept)
    requires forall x :: x in kept ==> x in rest
    ensures PairwiseDisjoint([s] + kept)
  {
    forall x | x in kept ensures !NetsOverlap(s.network, x.network) {
      var i :| 0 <= i < |rest| && rest[i] == x;
      assert ([s] + rest)[i + 1] == x && ([s] + rest)[0] == s;
    }
  }

  lemma SwapRemoveFacts(samples: seq<Sample>, i: nat)
    requires i < |samples| && PairwiseDisjoint(samples)
    ensures |SwapRemove(samples, i)| == |samples| - 1
    ensures PairwiseDisjoint(SwapRemove(samples, i))
    ensures forall x :: x in SwapRemove(samples, i) ==> x in samples
  {
  }

  lemma NextSamplesFacts(samples: seq<Sample>, sample: Sample, min: nat)
    requires PairwiseDisjoint(samples) && |samples| <= min && 1 <= min
    ensures var next := NextSamples(samples, sample, min);
      && PairwiseDisjoint(next) && |next| <= min
      && forall x :: x in next ==> x in samples || x == sample
  {
    hide NetsOverlap;
    var apart := Apart(samples, sample.network);
    ApartDisjoint(samples, sample.network);
    if |apart| >= min {
      SwapRemoveFacts(apart, Oldest(apart));
    }
    var room := if |apart| >= min && apart != [] then SwapRemove(apart, Oldest(apart)) else apart;
    assert forall x :: x in room ==> x in apart;
    forall i | 0 <= i < |room| ensures !NetsOverlap(room[i].network, sample.network) {
      assert room[i] in apart;
    }
  }

  /** The samples of an answer: one when it was admitted, none otherwise. */
  function FirstSamples(network: Net, expires: Option<nat>): seq<Sample> {
    if expires.Some? then [Sample(network, expires.value)] else []
  }

  lemma FirstSamplesBacked(cfg: SharingConfig, history: seq<Observation>, o: Observation, fp: Fingerprint)
    requires ValidSharing(cfg) && Agrees(o, fp)
    ensures Backed(cfg, history + [o], o.class_, Observing(fp, FirstSamples(o.network, o.expires)))
  {
    var samples := FirstSamples(o.network, o.expires);
    forall s | s in samples ensures Evidence(history + [o], o.class_, fp, s) {
      assert Supports(history + [o], o.class_, fp, s, |history|);
    }
  }

  /** A new agreeing sample joins evidence nothing has contradicted. */
  lemma NextSamplesBacked(cfg: SharingConfig, history: seq<Observation>, o: Observation, fp: Fingerprint,
                          samples: seq<Sample>)
    requires ValidSharing(cfg) && Agrees(o, fp) && o.expires.Some?
    requires |samples| <= cfg.minNetworks && PairwiseDisjoint(samples)
    requires AllEvidence(history, o.class_, fp, samples)
    ensures var next := NextSamples(samples, Sample(o.network, o.expires.value), cfg.minNetworks);
      Backed(cfg, history + [o], o.class_, Observing(fp, next))
  {
    var sample := Sample(o.network, o.expires.value);
    var next := NextSamples(samples, sample, cfg.minNetworks);
    NextSamplesFacts(samples, sample, cfg.minNetworks);
    EvidenceExtends(history, o, o.class_, fp, samples);
    forall s | s in next ensures Evidence(history + [o], o.class_, fp, s) {
      if s !in samples {
        assert Supports(history + [o], o.class_, fp, s, |history|);
      }
    }
  }

  /** Enough evidence of two spans is a promotion. */
  lemma PromotionBacked(cfg: SharingConfig, history: seq<Observation>, o: Observation, fp: Fingerprint,
                        samples: seq<Sample>)
    requires Backed(cfg, history + [o], o.class_, Observing(fp, samples))
    requires Agrees(o, fp) && Promotable(samples, cfg.minNetworks)
    requires forall s :: s in samples ==> s.expires > o.at
    ensures Promoted(cfg, history + [o], o.class_, fp, o.at)
  {
    var longer := history + [o];
    assert longer[..|history| + 1] == longer;
    assert Promotion(cfg, longer, o.class_, fp, o.at, |history|, samples);
  }

  /** How a learning answer is filed: its class, or none for namespaces that
      take no part in learning. */
  function ClassOf(key: Key, scope: Scope): Option<Class> {
    if scope.ExactSource? || (scope.Network? && scope.net.prefix > 0)
    then Some(Class(key, IsIpv4(scope.net.addr)))
    else None
  }

  /** A cooldown that has not ended. */
  predicate Cooling(phase: Phase, now: nat) {
    phase.Revoked? && phase.until > now
  }

  /** Whether an answer contradicts what the record stands for.  An explicit
      nonzero scope always does, unless a cooldown already runs. */
  predicate Contradicts(phase: Phase, explicitScope: bool, fp: Option<Fingerprint>, now: nat) {
    match phase
    case Revoked(until) => explicitScope && until <= now
    case Shared(shared, since) => explicitScope || (now < since + SHARED_MAX_AGE && fp != Some(shared))
    case Observing(observed, samples) =>
      explicitScope || (Unexpired(samples, now) != [] && fp != Some(observed))
  }

  /** When agreeing evidence is enough: an admitted answer joins what is still
      valid, nothing valid disagrees with it, and together they can be promoted. */
  predicate Promotes(cfg: SharingConfig, observed: Fingerprint, samples: seq<Sample>, o: Observation) {
    var live := Unexpired(samples, o.at);
    && o.fingerprint.Some? && o.expires.Some?
    && (live == [] || o.fingerprint == Some(observed))
    && Promotable(NextSamples(live, Sample(o.network, o.expires.value), cfg.minNetworks), cfg.minNetworks)
  }

  /** When the record of its class makes an answer a learned one. */
  predicate Learns(cfg: SharingConfig, phase: Phase, o: Observation) {
    match phase
    case Revoked(_) => false
    case Shared(shared, since) => o.at < since + SHARED_MAX_AGE && o.fingerprint == Some(shared)
    case Observing(observed, samples) => Promotes(cfg, observed, samples, o)
  }

  /** What gathering evidence becomes when a missing-ECS answer meets it. */
  function Gathered(cfg: SharingConfig, observed: Fingerprint, samples: seq<Sample>, o: Observation): Phase {
    var live := Unexpired(samples, o.at);
    if live != [] && o.fingerprint != Some(observed) then Revoked(o.at + cfg.cooldown)
    else if o.fingerprint.None? then Observing(observed, live)
    else if o.expires.None? then Observing(o.fingerprint.value, live)
    else
      var next := NextSamples(live, Sample(o.network, o.expires.value), cfg.minNetworks);
      if Promotable(next, cfg.minNetworks) then Shared(o.fingerprint.value, o.at)
      else Observing(o.fingerprint.value, next)
  }

  /** What the record of a class becomes when an answer of the class meets it. */
  function NextPhase(cfg: SharingConfig, phase: Phase, o: Observation): Phase {
    var anew := if o.fingerprint.Some? then Observing(o.fingerprint.value,
                                                      FirstSamples(o.network, o.expires)) else phase;
    if o.explicitScope then (if Cooling(phase, o.at) then phase else Revoked(o.at + cfg.cooldown))
    else
      match phase
      case Revoked(until) => if until <= o.at then anew else phase
      case Shared(shared, since) =>
        if Monus(o.at, since) >= SHARED_MAX_AGE then anew
        else if o.fingerprint == Some(shared) then phase
        else Revoked(o.at + cfg.cooldown)
      case Observing(observed, samples) => Gathered(cfg, observed, samples, o)
  }

  /** What one answer does to the records: which namespace it goes to, whether it
      revokes, and that no other class gains or changes anything. */
  ghost predicate Observed(cfg: SharingConfig, before: map<Class, Phase>, after: map<Class, Phase>, key: Key,
                           scope: Scope,
                           fingerprint: Option<Fingerprint>, lifetime: Option<nat>, now: nat, stored: Scope, revoked: bool) {
    if !scope.HasNet() || Indifferent(scope) then stored == scope && !revoked && after == before
    else
      var c := Class(key, |scope.net.addr| == 32);
      && (forall x :: x in after && x != c ==> x in before && after[x] == before[x])
      && var o := Witnessed(c, scope, fingerprint, lifetime, now);
      && (c in before ==> c in after && after[c] == NextPhase(cfg, before[c], o))
      && (c !in before ==> (c in after <==> scope.ExactSource? && fingerprint.Some?))
      && (c !in before && c in after ==> after[c] == Observing(fingerprint.value, FirstSamples(o.network, o.expires)))
      && (revoked <==> c in before && Contradicts(before[c], scope.Network?, fingerprint, now))
      && (revoked ==> stored == scope && after[c] == Revoked(now + cfg.cooldown))
      && (c in before && Cooling(before[c], now) ==> after[c] == before[c])
      && (stored != scope <==> c in before && scope.ExactSource? && Learns(cfg, before[c], o))
      && (stored != scope ==>
            && stored == Learned(c.ipv4) && after[c].Shared?
            && fingerprint == Some(after[c].fingerprint) && after[c].since <= now < after[c].since + SHARED_MAX_AGE)
  }

  lemma NotObserved(cfg: SharingConfig, records: map<Class, Phase>, key: Key, scope: Scope,
                    fingerprint: Option<Fingerprint>, lifetime: Option<nat>, now: nat)
    requires ClassOf(key, scope).None? ||
             ((scope.Network? || fingerprint.None?) && ClassOf(key, scope).value !in records)
    ensures Observed(cfg, records, records, key, scope, fingerprint, lifetime, now, scope, false)
  {
    hide NextPhase, Contradicts, Learns;
  }

  lemma ObservedFirst(cfg: SharingConfig, before: map<Class, Phase>, after: map<Class, Phase>, key: Key, scope: Scope,
                      fingerprint: Option<Fingerprint>, lifetime: Option<nat>, now: nat)
    requires ClassOf(key, scope).Some? && scope.ExactSource? && fingerprint.Some?
    requires var c := ClassOf(key, scope).value;
      var o := Witnessed(c, scope, fingerprint, lifetime, now);
      && c !in before && c in after
      && Submap(after, before[c := Observing(fingerprint.value, FirstSamples(o.network, o.expires))])
    ensures Observed(cfg, before, after, key, scope, fingerprint, lifetime, now, scope, false)
  {
    hide NextPhase, Contradicts, Learns;
  }

  lemma ObservedAgain(cfg: SharingConfig, before: map<Class, Phase>, after: map<Class, Phase>, key: Key, scope: Scope,
                      fingerprint: Option<Fingerprint>, lifetime: Option<nat>, now: nat, outcome: Outcome)
    requires ClassOf(key, scope).Some?
    requires var c := ClassOf(key, scope).value;
      var o := Witnessed(c, scope, fingerprint, lifetime, now);
      && c in before && c in after && after == before[c := after[c]]
      && after[c] == NextPhase(cfg, before[c], o)
      && (outcome == Revoke <==> Contradicts(before[c], scope.Network?, fingerprint, now))
      && (outcome == Revoke ==> after[c] == Revoked(now + cfg.cooldown))
      && (outcome == Learn <==> scope.ExactSource? && Learns(cfg, before[c], o))
      && (outcome == Learn ==>
            && fingerprint.Some? && after[c].Shared? && after[c].fingerprint == fingerprint.value
            && after[c].since <= now < after[c].since + SHARED_MAX_AGE)
      && (Cooling(before[c], now) ==> after[c] == before[c])
    ensures Observed(cfg, before, after, key, scope, fingerprint, lifetime, now,
                     if outcome == Learn then Learned(ClassOf(key, scope).value.ipv4) else scope, outcome == Revoke)
  {
    hide NextPhase, Contradicts, Learns;
  }

  /** What an answer adds to the history: itself, if it takes part. */
  ghost function Noted(key: Key, scope: Scope, fingerprint: Option<Fingerprint>, lifetime: Option<nat>,
                       now: nat): seq<Observation> {
    if !scope.HasNet() || Indifferent(scope) then []
    else [Witnessed(Class(key, |scope.net.addr| == 32), scope, fingerprint, lifetime, now)]
  }

  /** Namespaces that say nothing about networks: answers for them are no evidence and
      contradict nothing. */
  predicate Indifferent(scope: Scope) {
    scope.NoEcs? || scope.Privacy? || (scope.Network? && scope.net.prefix == 0)
  }

  /** Which answers take part: none for an indifferent namespace, an explicit network
      by revoking what is not cooling, and a missing one by what it agrees with. */
  lemma TakesPart(cfg: SharingConfig, before: map<Class, Phase>, after: map<Class, Phase>, key: Key, scope: Scope,
                  fingerprint: Option<Fingerprint>, lifetime: Option<nat>, now: nat, stored: Scope, revoked: bool)
    requires Observed(cfg, before, after, key, scope, fingerprint, lifetime, now, stored, revoked)
    ensures Indifferent(scope) ==>
      stored == scope && !revoked && after == before && Noted(key, scope, fingerprint, lifetime, now) == []
    ensures scope.Network? && scope.net.prefix > 0 ==>
      var c := Class(key, |scope.net.addr| == 32);
      && stored == scope
      && (revoked <==> c in before && !(before[c].Revoked? && now < before[c].until))
      && (revoked ==> c in after && after[c] == Revoked(now + cfg.cooldown))
      && Noted(key, scope, fingerprint, lifetime, now) ==
           [Observation(c, scope.net, true, fingerprint, now, if lifetime.Some? then Some(now + lifetime.value) else None)]
    ensures scope.ExactSource? ==>
      var c := Class(key, |scope.net.addr| == 32);
      && (stored == scope || stored == Learned(c.ipv4))
      && (c !in before && fingerprint.Some? ==> c in after)
      && Noted(key, scope, fingerprint, lifetime, now) ==
           [Observation(c, scope.net, false, fingerprint, now, if lifetime.Some? then Some(now + lifetime.value) else None)]
  {
    hide NextPhase, Learns;
  }

  /** The answer as it takes part in learning. */
  function Witnessed(c: Class, scope: Scope, fingerprint: Option<Fingerprint>, lifetime: Option<nat>,
                     now: nat): Observation
    requires scope.HasNet()
  {
    Observation(c, scope.net, scope.Network?, fingerprint, now,
                if lifetime.Some? then Some(now + lifetime.value) else None)
  }

  ghost predicate AllBacked(cfg: SharingConfig, history: seq<Observation>, records: map<Class, Phase>) {
    forall c :: c in records ==> Backed(cfg, history, c, records[c])
  }

  ghost predicate UpTo(history: seq<Observation>, latest: nat) {
    forall i :: 0 <= i < |history| ==> history[i].at <= latest
  }

  /** Every record was made after each invalidation that names it. */
  ghost predicate BornAfter(invalidations: seq<Filter>, born: map<Class, nat>, records: map<Class, Phase>) {
    forall c :: c in records ==>
      && c in born
      && born[c] <= |invalidations|
      && forall i :: 0 <= i < |invalidations| && invalidations[i].NamesClass(c.key, c.ipv4) ==> i < born[c]
  }

  lemma RecordsExtend(cfg: SharingConfig, history: seq<Observation>, o: Observation, records: map<Class, Phase>,
                      phase: Phase)
    requires AllBacked(cfg, history, records)
    requires Backed(cfg, history + [o], o.class_, phase)
    ensures AllBacked(cfg, history + [o], records[o.class_ := phase])
    ensures o.class_ !in records ==> AllBacked(cfg, history + [o], records)
  {
    hide Backed;
    forall c | c in records && c != o.class_
      ensures Backed(cfg, history + [o], c, records[c])
    {
      OtherClassUntouched(cfg, history, o, c, records[c]);
    }
  }

  class Table {
    const config: SharingConfig
    const capacity: nat
    var records: map<Class, Phase>
    /** Most recently used first. */
    var order: seq<Class>
    ghost var history: seq<Observation>
    ghost var invalidations: seq<Filter>
    ghost var born: map<Class, nat>
    /** The time of the last answer that took part. */
    ghost var latest: nat

    ghost predicate Valid()
      reads this
    {
      && ValidSharing(config)
      && 1 <= capacity
      && Lists(order, records.Keys)
      && |records| <= capacity
      && AllBacked(config, history, records)
      && BornAfter(invalidations, born, records)
      && UpTo(history, latest)
    }

    constructor (config: SharingConfig, capacity: nat)
      requires ValidSharing(config)
      ensures Valid()
      ensures this.config == config && records == map[] && history == [] && invalidations == [] && latest == 0
      ensures this.capacity == Max(1, capacity)
    {
      this.config := config;
      this.capacity := Max(1, capacity);
      records := map[];
      order := [];
      history := [];
      invalidations := [];
      born := map[];
      latest := 0;
    }

    /** Drops the least recently used records beyond the capacity. */
    method Shrink()
      requires Lists(order, records.Keys)
      modifies this`records, this`order
      ensures Lists(order, records.Keys)
      ensures Submap(records, old(records))
      ensures order <= old(order) && |records| == Min(|old(records)|, capacity)
      ensures order == old(order)[..Min(capacity, |old(order)|)]
    {
      hide Lists;
      ListedSize(order, records.Keys);
      while |records| > capacity
        invariant Lists(order, records.Keys)
        invariant Submap(records, old(records))
        invariant order <= old(order) && Min(|old(records)|, capacity) <= |records| <= |old(records)|
        decreases |records|
      {
        LastDropped(order, records.Keys);
        var last := order[|order| - 1];
        assert (records - {last}).Keys == records.Keys - {last};
        assert |records.Keys - {last}| == |records.Keys| - 1;
        records := records - {last};
        order := order[..|order| - 1];
      }
      ListedSize(order, records.Keys);
    }

    /** Starts a record for a class that has none. */
    method Begin(o: Observation, fp: Fingerprint)
      requires Valid() && o.class_ !in records && Agrees(o, fp) && latest <= o.at
      modifies this`records, this`order, this`born, this`history, this`latest
      ensures Valid() && latest == o.at && o.class_ in records
      ensures history == old(history) + [o]
      ensures Submap(records, old(records)[o.class_ := Observing(fp, FirstSamples(o.network, o.expires))])
      ensures order == ([o.class_] + old(order))[..Min(capacity, |old(order)| + 1)]
      ensures born == old(born)[o.class_ := |invalidations|]
    {
      hide Backed, Lists, AllBacked, BornAfter;
      var c := o.class_;
      var phase := Observing(fp, FirstSamples(o.network, o.expires));
      FirstSamplesBacked(config, history, o, fp);
      RecordsExtend(config, history, o, records, phase);
      BornNow(invalidations, born, records, c, phase);
      AddListed(order, records.Keys, c);
      assert records[c := phase].Keys == records.Keys + {c};
      records := records[c := phase];
      order := [c] + order;
      history := history + [o];
      latest := o.at;
      born := born[c := |invalidations|];
      label Added:
      assert |records| >= 1 by { assert c in records.Keys; }
      Shrink();
      FirstStays(order, records.Keys, c, old@Added(order));
      SubmapKeeps(config, history, invalidations, born, old@Added(records), records);
    }

    /** Writes the record of a known class, which becomes the most recent one. */
    method Write(o: Observation, phase: Phase)
      requires Valid() && o.class_ in records && latest <= o.at
      requires Backed(config, history + [o], o.class_, phase)
      modifies this`records, this`order, this`history, this`latest
      ensures Valid() && latest == o.at
      ensures history == old(history) + [o]
      ensures records == old(records)[o.class_ := phase] && order == [o.class_] + Without(old(order), o.class_)
    {
      hide Backed, Lists, AllBacked;
      var c := o.class_;
      RecordsExtend(config, history, o, records, phase);
      TouchListed(order, records.Keys, c);
      assert records[c := phase].Keys == records.Keys;
      records := records[c := phase];
      order := [c] + Without(order, c);
      history := history + [o];
      latest := o.at;
    }

    /** An answer of a class without record that starts none. */
    ghost method Ignore(o: Observation)
      requires Valid() && o.class_ !in records && latest <= o.at
      modifies this`history, this`latest
      ensures Valid() && latest == o.at
      ensures history == old(history) + [o]
    {
      hide Backed, Lists, AllBacked, BornAfter;
      assert Backed(config, history + [o], o.class_, Revoked(0)) by {
        RevokedBacked(config, history + [o], o.class_, 0);
      }
      RecordsExtend(config, history, o, records, Revoked(0));
      history := history + [o];
      latest := o.at;
    }

    /** A missing-ECS answer meets gathering evidence. */
    method Gather(o: Observation, observed: Fingerprint, samples: seq<Sample>) returns (outcome: Outcome)
      requires Valid() && o.class_ in records && records[o.class_] == Observing(observed, samples)
      requires !o.explicitScope && (o.expires.Some? ==> o.expires.value > o.at) && latest <= o.at
      modifies this`records, this`order, this`history, this`latest
      ensures Valid() && latest == o.at
      ensures history == old(history) + [o]
      ensures o.class_ in records && records == old(records)[o.class_ := records[o.class_]]
      ensures order == [o.class_] + Without(old(order), o.class_)
      ensures records[o.class_] == Gathered(config, observed, samples, o)
      ensures outcome == Revoke <==> Unexpired(samples, o.at) != [] && o.fingerprint != Some(observed)
      ensures outcome == Revoke ==> records[o.class_] == Revoked(o.at + config.cooldown)
      ensures outcome == Learn <==> Promotes(config, observed, samples, o)
      ensures outcome == Learn ==> o.fingerprint.Some? && records[o.class_] == Shared(o.fingerprint.value, o.at)
    {
      hide AllBacked, BornAfter, Lists, NextSamples, PairwiseDisjoint;
      ghost var c := o.class_;
      BackedNow(config, history, records, c);
      var live := Unexpired(samples, o.at);
      UnexpiredDisjoint(samples, o.at);
      if live != [] && o.fingerprint != Some(observed) {
        RevokedBacked(config, history + [o], c, o.at + config.cooldown);
        Write(o, Revoked(o.at + config.cooldown));
        return Revoke;
      }
      if o.fingerprint.None? {
        EvidenceExtends(history, o, c, observed, live);
        Write(o, Observing(observed, live));
        return Keep;
      }
      var fp := o.fingerprint.value;
      LiveEvidence(history, c, observed, fp, samples, live);
      if o.expires.None? {
        EvidenceExtends(history, o, c, fp, live);
        Write(o, Observing(fp, live));
        return Keep;
      }
      var sample := Sample(o.network, o.expires.value);
      var next := NextSamples(live, sample, config.minNetworks);
      NextSamplesBacked(config, history, o, fp, live);
      if Promotable(next, config.minNetworks) {
        NextSamplesFacts(live, sample, config.minNetworks);
        PromotionBacked(config, history, o, fp, next);
        Write(o, Shared(fp, o.at));
        return Learn;
      }
      Write(o, Observing(fp, next));
      return Keep;
    }

    /** A missing-ECS answer meets the record of its class. */
    method Meet(o: Observation) returns (outcome: Outcome)
      requires Valid() && o.class_ in records
      requires !o.explicitScope && (o.expires.Some? ==> o.expires.value > o.at) && latest <= o.at
      modifies this`records, this`order, this`history, this`latest
      ensures Valid() && latest == o.at
      ensures history == old(history) + [o]
      ensures o.class_ in records && records == old(records)[o.class_ := records[o.class_]]
      ensures order == [o.class_] + Without(old(order), o.class_)
      ensures records[o.class_] == NextPhase(config, old(records)[o.class_], o)
      ensures outcome == Revoke <==> Contradicts(old(records)[o.class_], false, o.fingerprint, o.at)
      ensures outcome == Revoke ==> records[o.class_] == Revoked(o.at + config.cooldown)
      ensures outcome == Learn <==> Learns(config, old(records)[o.class_], o)
      ensures outcome == Learn ==>
        && o.fingerprint.Some?
        && records[o.class_].Shared?
        && records[o.class_].fingerprint == o.fingerprint.value
        && o.at < records[o.class_].since + SHARED_MAX_AGE
      ensures Cooling(old(records)[o.class_], o.at) ==> outcome == Keep && records == old(records)
    {
      hide AllBacked, BornAfter, Lists, Unexpired, Promotes, Gathered;
      var c, now := o.class_, o.at;
      BackedNow(config, history, records, c);
      match records[c] {
        case Revoked(until) =>
          if until <= now && o.fingerprint.Some? {
            FirstSamplesBacked(config, history, o, o.fingerprint.value);
            Write(o, Observing(o.fingerprint.value, FirstSamples(o.network, o.expires)));
          } else {
            RevokedBacked(config, history + [o], c, until);
            Write(o, records[c]);
          }
          return Keep;
        case Shared(shared, since) =>
          if Monus(now, since) >= SHARED_MAX_AGE {
            if o.fingerprint.Some? {
              FirstSamplesBacked(config, history, o, o.fingerprint.value);
              Write(o, Observing(o.fingerprint.value, FirstSamples(o.network, o.expires)));
            } else {
              PromotedExtends(config, history, o, c, shared, since);
              Write(o, records[c]);
            }
            return Keep;
          }
          if o.fingerprint == Some(shared) {
            PromotedExtends(config, history, o, c, shared, since);
            Write(o, records[c]);
            return Learn;
          }
          RevokedBacked(config, history + [o], c, now + config.cooldown);
          Write(o, Revoked(now + config.cooldown));
          return Revoke;
        case Observing(observed, samples) =>
          outcome := Gather(o, observed, samples);
      }
    }

    /** Takes one answer in and says where it is stored.  The caller has checked
        its epoch under the same lock.  An answer without `lifetime` is not stored
        and is no evidence. */
    method Observe(key: Key, scope: Scope, fingerprint: Option<Fingerprint>, lifetime: Option<nat>, now: nat)
      returns (stored: Scope, revoked: bool)
      requires Valid()
      requires (lifetime.Some? ==> lifetime.value > 0) && latest <= now
      modifies this
      ensures Valid()
      ensures invalidations == old(invalidations) && old(latest) <= latest <= now
      ensures Observed(config, old(records), records, key, scope, fingerprint, lifetime, now, stored, revoked)
      ensures history == old(history) + Noted(key, scope, fingerprint, lifetime, now)
      ensures forall c :: c in records ==>
        if c in old(records) then c in old(born) && c in born && born[c] == old(born)[c] else c in born && born[c] == |invalidations|
      ensures stored != scope ==>
        var c := Class(key, |scope.net.addr| == 32);
        Promoted(config, history, c, records[c].fingerprint, records[c].since)
      ensures Recalled(old(records).Keys, records.Keys, old(order), order, capacity, key, scope, fingerprint)
    {
      hide AllBacked, Lists, Contradicts, Learns, BornAfter, Promoted, ValidSharing, NextPhase, UpTo, Recalled,
        Observed;
      BornKnown(invalidations, born, records);
      var class_ := ClassOf(key, scope);
      if class_.None? {
        NotRecalled(records.Keys, order, capacity, key, scope, fingerprint);
        NotObserved(config, records, key, scope, fingerprint, lifetime, now);
        return scope, false;
      }
      var c := class_.value;
      var o := Witnessed(c, scope, fingerprint, lifetime, now);
      if c !in records {
        if scope.Network? || fingerprint.None? {
          Ignore(o);
          NotRecalled(records.Keys, order, capacity, key, scope, fingerprint);
          NotObserved(config, records, key, scope, fingerprint, lifetime, now);
        } else {
          Begin(o, fingerprint.value);
          RecalledFirst(old(records).Keys, records.Keys, old(order), order, capacity, key, scope, fingerprint);
          ObservedFirst(config, old(records), records, key, scope, fingerprint, lifetime, now);
        }
        return scope, false;
      }
      RecalledAgain(records.Keys, order, capacity, key, scope, fingerprint);
      if scope.Network? {
        revoked := Override(o);
        assert records.Keys == old(records).Keys;
        ExplicitPhase(config, old(records)[c], o);
        ObservedAgain(config, old(records), records, key, scope, fingerprint, lifetime, now,
                      if revoked then Revoke else Keep);
        return scope, revoked;
      }
      var outcome := Meet(o);
      assert records.Keys == old(records).Keys;
      PromotedNow(config, history, records, c, latest);
      ObservedAgain(config, old(records), records, key, scope, fingerprint, lifetime, now, outcome);
      return if outcome == Learn then Learned(c.ipv4) else scope, outcome == Revoke;
    }

    /** An explicit nonzero scope meets the record of its class. */
    method Override(o: Observation) returns (revoked: bool)
      requires Valid() && o.class_ in records && o.explicitScope && latest <= o.at
      modifies this`records, this`order, this`history, this`latest
      ensures Valid() && latest == o.at
      ensures history == old(history) + [o]
      ensures o.class_ in records && records == old(records)[o.class_ := records[o.class_]]
      ensures order == [o.class_] + Without(old(order), o.class_)
      ensures revoked <==> Contradicts(old(records)[o.class_], true, o.fingerprint, o.at)
      ensures revoked <==> !Cooling(old(records)[o.class_], o.at)
      ensures records[o.class_] == if revoked then Revoked(o.at + config.cooldown) else old(records)[o.class_]
    {
      hide AllBacked, BornAfter, Lists, Backed;
      revoked := !Cooling(records[o.class_], o.at);
      var phase := if revoked then Revoked(o.at + config.cooldown) else records[o.class_];
      RevokedBacked(config, history + [o], o.class_, phase.until);
      Write(o, phase);
    }

    /** An invalidation takes the records of the classes it names. */
    method Invalidate(filter: Filter)
      requires Valid()
      modifies this`records, this`order, this`invalidations
      ensures Valid()
      ensures invalidations == old(invalidations) + [filter]
      ensures records == Forget(old(records), filter)
    {
      hide AllBacked, BornAfter, Lists, Forget, ForgetFirst;
      ForgetAll(records, order, filter);
      ForgetKeeps(config, history, invalidations, born, records, filter);
      Pop(order, filter);
      invalidations := invalidations + [filter];
    }

    method Pop(listed: seq<Class>, filter: Filter)
      requires Lists(order, records.Keys)
      modifies this`records, this`order
      ensures Lists(order, records.Keys)
      ensures records == ForgetFirst(old(records), listed, |listed|, filter)
    {
      hide Lists, Without;
      for i := 0 to |listed|
        invariant Lists(order, records.Keys)
        invariant records == ForgetFirst(old(records), listed, i, filter)
      {
        var c := listed[i];
        if filter.NamesClass(c.key, c.ipv4) {
          DropRecord(order, records, c);
          records := records - {c};
          order := Without(order, c);
        }
      }
    }
  }

  /** What one answer does to the order of use: the class it is about comes first,
      and only a full table loses a record, the one used least recently. */
  ghost predicate Recalled(before: set<Class>, after: set<Class>, order: seq<Class>, order': seq<Class>, capacity: nat,
                           key: Key, scope: Scope, fingerprint: Option<Fingerprint>) {
    && (!scope.HasNet() || Indifferent(scope) ==> order' == order)
    && (scope.HasNet() && !Indifferent(scope) ==>
          var c := Class(key, |scope.net.addr| == 32);
          order' ==
          if c in before then [c] + Without(order, c)
          else if scope.ExactSource? && fingerprint.Some? then ([c] + order)[..Min(capacity, |order| + 1)]
          else order)
    && (forall x :: x in before && x !in after ==> |order| == |before| == capacity && x == order[|order| - 1])
  }

  lemma NotRecalled(before: set<Class>, order: seq<Class>, capacity: nat, key: Key, scope: Scope,
                    fingerprint: Option<Fingerprint>)
    requires ClassOf(key, scope).None? ||
             ((scope.Network? || fingerprint.None?) && ClassOf(key, scope).value !in before)
    ensures Recalled(before, before, order, order, capacity, key, scope, fingerprint)
  {
    hide Without;
  }

  lemma RecalledAgain(before: set<Class>, order: seq<Class>, capacity: nat, key: Key, scope: Scope,
                      fingerprint: Option<Fingerprint>)
    requires ClassOf(key, scope).Some? && ClassOf(key, scope).value in before
    ensures var c := ClassOf(key, scope).value;
      Recalled(before, before, order, [c] + Without(order, c), capacity, key, scope, fingerprint)
  {
    hide Without;
  }

  lemma RecalledFirst(before: set<Class>, after: set<Class>, order: seq<Class>, order': seq<Class>, capacity: nat,
                      key: Key, scope: Scope, fingerprint: Option<Fingerprint>)
    requires ClassOf(key, scope).Some? && ClassOf(key, scope).value !in before
    requires scope.ExactSource? && fingerprint.Some?
    requires Lists(order, before) && Lists(order', after) && |before| <= capacity && 1 <= capacity
    requires order' == ([ClassOf(key, scope).value] + order)[..Min(capacity, |order| + 1)]
    ensures Recalled(before, after, order, order', capacity, key, scope, fingerprint)
  {
    hide Without, NoDuplicates;
    ListedSize(order, before);
    var c := ClassOf(key, scope).value;
    forall i | 0 <= i && i + 1 < Min(capacity, |order| + 1) ensures order[i] in after {
      assert order'[i + 1] == order[i];
    }
  }

  lemma DropRecord(order: seq<Class>, records: map<Class, Phase>, c: Class)
    requires Lists(order, records.Keys)
    ensures Lists(Without(order, c), (records - {c}).Keys)
  {
    DropListed(order, records.Keys, c);
    assert (records - {c}).Keys == records.Keys - {c};
  }

  /** The records left once the first `i` listed classes were considered. */
  ghost function ForgetFirst(records: map<Class, Phase>, order: seq<Class>, i: nat, filter: Filter): map<Class, Phase>
    requires i <= |order|
  {
    if i == 0 then records
    else
      var c := order[i - 1];
      var rest := ForgetFirst(records, order, i - 1, filter);
      if filter.NamesClass(c.key, c.ipv4) then rest - {c} else rest
  }

  lemma {:induction false} ForgetFirstMeans(records: map<Class, Phase>, order: seq<Class>, i: nat, filter: Filter)
    requires i <= |order|
    ensures Submap(ForgetFirst(records, order, i, filter), records)
    ensures forall c :: c in records ==>
      (c in ForgetFirst(records, order, i, filter) <==> !(c in order[..i] && filter.NamesClass(c.key, c.ipv4)))
  {
    if i > 0 {
      ForgetFirstMeans(records, order, i - 1, filter);
      assert order[..i] == order[..i - 1] + [order[i - 1]];
    }
  }

  /** The records an invalidation leaves. */
  function Forget(records: map<Class, Phase>, filter: Filter): map<Class, Phase> {
    map c | c in records && !filter.NamesClass(c.key, c.ipv4) :: records[c]
  }

  lemma ForgetAll(records: map<Class, Phase>, order: seq<Class>, filter: Filter)
    requires Lists(order, records.Keys)
    ensures ForgetFirst(records, order, |order|, filter) == Forget(records, filter)
    ensures |Forget(records, filter)| <= |records|
  {
    ForgetFirstMeans(records, order, |order|, filter);
    assert order[..|order|] == order;
    SubsetSize(Forget(records, filter).Keys, records.Keys);
  }

  lemma ForgetKeeps(cfg: SharingConfig, history: seq<Observation>, invalidations: seq<Filter>, born: map<Class, nat>,
                    records: map<Class, Phase>, filter: Filter)
    requires AllBacked(cfg, history, records) && BornAfter(invalidations, born, records)
    ensures AllBacked(cfg, history, Forget(records, filter))
    ensures BornAfter(invalidations + [filter], born, Forget(records, filter))
  {
    hide Backed;
  }

  /** What the learned namespace stands on: when an answer is filed as learned,
      enough networks had agreed, pairwise disjoint and still valid, two of them
      in blocks that share no address, and no answer of the class disagreed from
      that promotion on.  `p` is the promoting answer. */
  lemma LearnedIsSound(cfg: SharingConfig, history: seq<Observation>, c: Class, fp: Fingerprint, since: nat)
    returns (p: nat, evidence: seq<Sample>, i: nat)
    requires Promoted(cfg, history, c, fp, since)
    ensures Promotion(cfg, history, c, fp, since, p, evidence)
    ensures 0 < i < |evidence|
    ensures !NetsOverlap(Span(evidence[0].network), Span(evidence[i].network))
  {
    hide NetsOverlap, Span, AllEvidence, Uncontradicted;
    p, evidence :| Promotion(cfg, history, c, fp, since, p, evidence);
    i :| 0 <= i < |evidence| && Span(evidence[i].network) != Span(evidence[0].network);
    UnequalSpansAreDisjoint(evidence[0].network, evidence[i].network);
  }

  datatype Outcome = Keep | Revoke | Learn

  lemma RevokedBacked(cfg: SharingConfig, history: seq<Observation>, c: Class, until: nat)
    ensures Backed(cfg, history, c, Revoked(until))
  {
  }

  lemma BackedNow(cfg: SharingConfig, history: seq<Observation>, records: map<Class, Phase>, c: Class)
    requires AllBacked(cfg, history, records) && c in records
    ensures Backed(cfg, history, c, records[c])
  {
  }

  lemma ExplicitPhase(cfg: SharingConfig, phase: Phase, o: Observation)
    requires o.explicitScope
    ensures NextPhase(cfg, phase, o) == if Cooling(phase, o.at) then phase else Revoked(o.at + cfg.cooldown)
  {
  }

  /** The most recent class is the last that shrinking would drop. */
  lemma FirstStays(order: seq<Class>, keys: set<Class>, c: Class, before: seq<Class>)
    requires Lists(order, keys) && order <= before && before != [] && before[0] == c && |keys| >= 1
    ensures c in keys
  {
    ListedSize(order, keys);
    assert order[0] == c;
  }

  lemma PromotedNow(cfg: SharingConfig, history: seq<Observation>, records: map<Class, Phase>, c: Class, latest: nat)
    requires AllBacked(cfg, history, records) && c in records && UpTo(history, latest)
    ensures records[c].Shared? ==>
      Promoted(cfg, history, c, records[c].fingerprint, records[c].since) && records[c].since <= latest
  {
    assert Backed(cfg, history, c, records[c]);
  }

  lemma LiveEvidence(history: seq<Observation>, c: Class, observed: Fingerprint, fp: Fingerprint,
                     samples: seq<Sample>, live: seq<Sample>)
    requires AllEvidence(history, c, observed, samples)
    requires forall s :: s in live ==> s in samples
    requires live != [] ==> fp == observed
    ensures AllEvidence(history, c, fp, live)
  {
  }

  ghost predicate Submap(a: map<Class, Phase>, b: map<Class, Phase>) {
    forall c :: c in a ==> c in b && a[c] == b[c]
  }

  lemma SubmapKeeps(cfg: SharingConfig, history: seq<Observation>, invalidations: seq<Filter>, born: map<Class, nat>,
                    before: map<Class, Phase>, after: map<Class, Phase>)
    requires Submap(after, before)
    ensures AllBacked(cfg, history, before) ==> AllBacked(cfg, history, after)
    ensures BornAfter(invalidations, born, before) ==> BornAfter(invalidations, born, after)
  {
    hide Backed;
  }

  lemma BornKnown(invalidations: seq<Filter>, born: map<Class, nat>, records: map<Class, Phase>)
    requires BornAfter(invalidations, born, records)
    ensures forall c :: c in records ==> c in born
  {
  }

  lemma BornNow(invalidations: seq<Filter>, born: map<Class, nat>, records: map<Class, Phase>, c: Class, phase: Phase)
    requires BornAfter(invalidations, born, records)
    ensures BornAfter(invalidations, born[c := |invalidations|], records[c := phase])
  {
  }

  // ----- Reaching a promotion -----

  /** The record that a run of answers leaves, the first of them without one. */
  ghost function After(cfg: SharingConfig, run: seq<Observation>): Phase
    requires run != [] && run[0].fingerprint.Some?
  {
    var n := |run| - 1;
    if n == 0 then Observing(run[0].fingerprint.value, FirstSamples(run[0].network, run[0].expires))
    else NextPhase(cfg, After(cfg, run[..n]), run[n])
  }

  /** Admitted answers that agree on `fp`, from networks that share no address, all
      of them valid when the last one comes. */
  ghost predicate Agreeing(run: seq<Observation>, fp: Fingerprint) {
    && (forall i :: 0 <= i < |run| ==> Agrees(run[i], fp) && run[i].expires.Some?)
    && (forall i, j :: 0 <= i < j < |run| ==> run[i].at <= run[j].at < run[i].expires.value)
    && (forall i, j :: 0 <= i < j < |run| ==> !NetsOverlap(run[i].network, run[j].network))
  }

  ghost function SamplesOf(run: seq<Observation>): (s: seq<Sample>)
    requires forall i :: 0 <= i < |run| ==> run[i].expires.Some?
    ensures |s| == |run| && forall i :: 0 <= i < |run| ==> s[i] == Sample(run[i].network, run[i].expires.value)
  {
    seq(|run|, i requires 0 <= i < |run| => Sample(run[i].network, run[i].expires.value))
  }

  lemma {:induction false} AllUnexpired(samples: seq<Sample>, now: nat)
    requires forall i :: 0 <= i < |samples| ==> samples[i].expires > now
    ensures Unexpired(samples, now) == samples
  {
    if samples != [] {
      AllUnexpired(samples[1..], now);
    }
  }

  lemma {:induction false} AllApart(samples: seq<Sample>, network: Net)
    requires forall i :: 0 <= i < |samples| ==> !NetsOverlap(samples[i].network, network)
    ensures Apart(samples, network) == samples
  {
    hide NetsOverlap;
    if samples != [] {
      AllApart(samples[1..], network);
    }
  }

  /** One more agreeing answer joins the samples of those before it. */
  lemma JoinsSamples(cfg: SharingConfig, run: seq<Observation>, fp: Fingerprint)
    requires Agreeing(run, fp) && 1 < |run| <= cfg.minNetworks
    ensures var n := |run| - 1; var last := run[n];
      && Unexpired(SamplesOf(run[..n]), last.at) == SamplesOf(run[..n])
      && NextSamples(SamplesOf(run[..n]), Sample(last.network, last.expires.value), cfg.minNetworks) == SamplesOf(run)
  {
    hide NetsOverlap;
    var n := |run| - 1;
    AllUnexpired(SamplesOf(run[..n]), run[n].at);
    AllApart(SamplesOf(run[..n]), run[n].network);
  }

  /** Fewer agreeing answers than the configuration asks for are gathered, each of
      them once. */
  lemma {:induction false} AgreementGathers(cfg: SharingConfig, run: seq<Observation>, fp: Fingerprint)
    requires Agreeing(run, fp) && 0 < |run| < cfg.minNetworks
    ensures After(cfg, run) == Observing(fp, SamplesOf(run))
  {
    hide NetsOverlap, NextSamples, Unexpired, Span;
    var n := |run| - 1;
    if n == 0 {
      assert FirstSamples(run[0].network, run[0].expires) == SamplesOf(run);
    } else {
      AgreementGathers(cfg, run[..n], fp);
      JoinsSamples(cfg, run, fp);
    }
  }

  /** Learning happens: as many agreeing answers as the configuration asks for, from
      disjoint networks that are not all of one block, make the last of them a
      learned answer and share the record. */
  lemma {:induction false} AgreementIsLearned(cfg: SharingConfig, run: seq<Observation>, fp: Fingerprint, i: nat)
    requires Agreeing(run, fp) && |run| == cfg.minNetworks >= 2
    requires i < |run| && Span(run[i].network) != Span(run[0].network)
    ensures Learns(cfg, After(cfg, run[..|run| - 1]), run[|run| - 1])
    ensures After(cfg, run) == Shared(fp, run[|run| - 1].at)
  {
    hide NetsOverlap, NextSamples, Unexpired, Span;
    var n := |run| - 1;
    AgreementGathers(cfg, run[..n], fp);
    JoinsSamples(cfg, run, fp);
    assert SamplesOf(run)[i].network == run[i].network && SamplesOf(run)[0].network == run[0].network;
    assert Promotable(SamplesOf(run), cfg.minNetworks);
  }
}
