/** Lifetimes across a clean snapshot: what is saved of an entry's remaining
    time, and what a restore may give back. */
module Snapshot {
  import opened Wrappers
  import opened CacheTypes
  import opened Responses

  const MAX_U32: nat := 0xffff_ffff

  function Secs(ns: nat): nat {
    ns / SECOND
  }

  function CeilSecs(ns: nat): nat {
    (ns + SECOND - 1) / SECOND
  }

  function AgeRecords(records: seq<Record>, secs: nat): (r: seq<Record>)
    ensures |r| == |records|
    ensures forall k :: 0 <= k < |records| ==>
      SameButTtl(r[k], records[k]) && r[k].ttl == Monus(records[k].ttl, secs)
  {
    seq(|records|, k requires 0 <= k < |records| => records[k].(ttl := Monus(records[k].ttl, secs)))
  }

  function Aged(m: Message, secs: nat): Message {
    m.(answers := AgeRecords(m.answers, secs),
       authorities := AgeRecords(m.authorities, secs),
       additionals := AgeRecords(m.additionals, secs))
  }

  /** Whole seconds an entry of `lifetime` nanoseconds still has at `age`. */
  function Remaining(lifetime: nat, age: nat): nat {
    Min(Secs(Monus(lifetime, age)), MAX_U32)
  }

  function Elapsed(age: nat): nat {
    Min(CeilSecs(age), MAX_U32)
  }

  function Offline(ns: nat): nat {
    Min(CeilSecs(ns), MAX_U32)
  }

  /** A stored answer that can be prepared again: no record is below its
      lifetime, and neither is any bound the lifetime was lowered from. */
  ghost predicate Replayable(name: Name, kind: nat, policy: Policy, m: Message, lifetime: nat) {
    && m.edns == Plain && Supersedes(m)
    && 1 <= lifetime <= MAX_TTL
    && Above(All(m), lifetime)
    && LifetimeBound(name, kind, m, policy).Ok?
    && lifetime <= LifetimeBound(name, kind, m, policy).value
    && lifetime <= policy.maxTtl
  }

  ghost predicate Alike(a: seq<Record>, b: seq<Record>) {
    |a| == |b| && forall k :: 0 <= k < |a| ==> SameButTtl(a[k], b[k])
  }

  lemma {:induction false} PlainSoaFloor(a: seq<Record>, b: seq<Record>, name: Name, floor: nat)
    requires Alike(a, b) && forall k :: 0 <= k < |b| ==> floor <= b[k].ttl
    requires PlainSoa(a, name).Some? ==> floor <= PlainSoa(a, name).value
    ensures PlainSoa(b, name).Some? <==> PlainSoa(a, name).Some?
    ensures PlainSoa(b, name).Some? ==> floor <= PlainSoa(b, name).value
  {
    if a != [] {
      var n := |a| - 1;
      assert SameButTtl(a[n], b[n]);
      PlainSoaFloor(a[..n], b[..n], name, floor);
    }
  }

  lemma {:induction false} ChainSoaFloor(a: seq<Record>, b: seq<Record>, end: Name, floor: nat)
    requires Alike(a, b) && forall k :: 0 <= k < |b| ==> floor <= b[k].ttl
    requires ChainSoa(a, end).Ok?
    requires ChainSoa(a, end).value.Some? ==> floor <= ChainSoa(a, end).value.value.lifetime
    ensures ChainSoa(b, end).Ok?
    ensures var x, y := ChainSoa(a, end).value, ChainSoa(b, end).value;
      && (x.Some? <==> y.Some?)
      && (x.Some? ==> y.value.owner == x.value.owner && y.value.data == x.value.data && floor <= y.value.lifetime)
  {
    if a != [] {
      var n := |a| - 1;
      assert SameButTtl(a[n], b[n]);
      ChainSoaFloor(a[..n], b[..n], end, floor);
    }
  }

  lemma {:induction false} TargetsAlike(a: seq<Record>, b: seq<Record>)
    requires Alike(a, b)
    ensures Targets(a) == Targets(b)
  {
    if a != [] {
      var n := |a| - 1;
      assert SameButTtl(a[n], b[n]);
      TargetsAlike(a[..n], b[..n]);
    }
  }

  ghost predicate AlikeMessages(a: Message, b: Message) {
    && b.code == a.code
    && Alike(a.answers, b.answers)
    && Alike(a.authorities, b.authorities)
    && Alike(a.additionals, b.additionals)
  }

  lemma NegativeAlike(kind: nat, a: Message, b: Message)
    requires AlikeMessages(a, b)
    ensures IsNegative(kind, a) <==> IsNegative(kind, b)
  {
    assert forall k :: 0 <= k < |a.answers| ==> SameButTtl(a.answers[k], b.answers[k]);
  }

  /** Lower TTLs above a floor keep the negative proof, and its lifetime stays
      above the floor. */
  lemma BoundFloor(name: Name, kind: nat, policy: Policy, a: Message, b: Message, floor: nat)
    requires AlikeMessages(a, b)
    requires forall k :: 0 <= k < |b.authorities| ==> floor <= b.authorities[k].ttl
    requires LifetimeBound(name, kind, a, policy).Ok? && floor <= LifetimeBound(name, kind, a, policy).value
    ensures LifetimeBound(name, kind, b, policy).Ok? && floor <= LifetimeBound(name, kind, b, policy).value
  {
    NegativeAlike(kind, a, b);
    if IsNegative(kind, a) {
      if a.answers == [] {
        PlainSoaFloor(a.authorities, b.authorities, name, floor);
      } else {
        TargetsAlike(a.answers, b.answers);
        ChainSoaFloor(a.authorities, b.authorities, ChainEnd(a.answers, name).value, floor);
      }
    }
  }

  lemma StoredSections(m: Message, records: seq<Record>)
    requires Alike(All(m), records)
    ensures All(WithRecords(m, records)) == records
    ensures AlikeMessages(m, WithRecords(m, records)) && WithRecords(m, records).edns == Plain
    ensures Supersedes(m) ==> Supersedes(WithRecords(m, records))
    ensures forall k :: 0 <= k < |m.authorities| ==>
      WithRecords(m, records).authorities[k] == records[|m.answers| + k]
  {
    var s := WithRecords(m, records);
    var a, b := |m.answers|, |m.answers| + |m.authorities|;
    forall k | 0 <= k < |m.answers| ensures SameButTtl(m.answers[k], s.answers[k]) {
      assert All(m)[k] == m.answers[k];
    }
    forall k | 0 <= k < |m.authorities| ensures SameButTtl(m.authorities[k], s.authorities[k]) {
      assert All(m)[a + k] == m.authorities[k];
    }
    forall k | 0 <= k < |m.additionals| ensures SameButTtl(m.additionals[k], s.additionals[k]) {
      assert All(m)[b + k] == m.additionals[k];
    }
  }

  /** Every record is clear of bars and of the lifetime. */
  ghost predicate Above(records: seq<Record>, lifetime: nat) {
    forall k :: 0 <= k < |records| ==> !Barred(records[k]) && lifetime <= records[k].ttl
  }

  lemma CappedAbove(records: seq<Record>, maxTtl: nat, negative: bool, bound: nat)
    requires CapRecords(records, maxTtl, negative, bound).Ok?
    ensures var c := CapRecords(records, maxTtl, negative, bound).value;
      Alike(records, c.records) && Above(c.records, c.lifetime) && c.lifetime <= bound
  {
    hide CapRecords;
    CappedShape(records, maxTtl, negative, bound);
  }

  lemma AuthoritiesAbove(m: Message, lifetime: nat)
    requires Above(All(m), lifetime)
    ensures forall k :: 0 <= k < |m.authorities| ==> lifetime <= m.authorities[k].ttl
  {
    forall k | 0 <= k < |m.authorities| ensures lifetime <= m.authorities[k].ttl {
      assert All(m)[|m.answers| + k] == m.authorities[k];
    }
  }

  lemma BoundFacts(name: Name, kind: nat, policy: Policy, m: Message)
    requires LifetimeBound(name, kind, m, policy).Ok?
    ensures LifetimeBound(name, kind, m, policy).value <= policy.maxTtl
    ensures |All(m)| > 0
  {
  }

  /** What preparation stores can be prepared again. */
  lemma PreparedIsReplayable(name: Name, kind: nat, policy: Policy, m: Message)
    requires Prepare(name, kind, m, policy).Ok? && Supersedes(m)
    ensures var p := Prepare(name, kind, m, policy).value;
      && Replayable(name, kind, policy, p.stored, p.lifetime)
      && p.negative == IsNegative(kind, p.stored)
  {
    hide LifetimeBound, CapRecords, IsNegative, Alike, All, Above, AlikeMessages, WithRecords;
    var p := Prepare(name, kind, m, policy).value;
    var bound := LifetimeBound(name, kind, m, policy).value;
    var c := CapRecords(All(m), policy.maxTtl, p.negative, bound).value;
    CappedAbove(All(m), policy.maxTtl, p.negative, bound);
    StoredSections(m, c.records);
    NegativeAlike(kind, m, p.stored);
    AuthoritiesAbove(p.stored, p.lifetime);
    BoundFloor(name, kind, policy, m, p.stored, p.lifetime);
    BoundFacts(name, kind, policy, p.stored);
    BoundFacts(name, kind, policy, m);
    CappedCeiling(All(m), policy.maxTtl, p.negative, bound);
    LowRecord(c.records, p.lifetime);
  }

  lemma LowRecord(records: seq<Record>, lifetime: nat)
    requires |records| > 0 && Above(records, lifetime)
    ensures lifetime <= MAX_TTL
  {
    assert !Barred(records[0]);
  }

  lemma AgedFacts(m: Message, secs: nat, lifetime: nat)
    requires Above(All(m), lifetime) && secs <= lifetime
    ensures AlikeMessages(m, Aged(m, secs))
    ensures Above(All(Aged(m, secs)), lifetime - secs)
  {
    var aged := Aged(m, secs);
    assert All(aged) == AgeRecords(All(m), secs);
    forall k | 0 <= k < |All(aged)|
      ensures !Barred(All(aged)[k]) && lifetime - secs <= All(aged)[k].ttl
    {
      assert !Barred(All(m)[k]) && SameButTtl(All(aged)[k], All(m)[k]);
    }
  }

  /** Preparing an aged answer again neither rejects it nor shortens it below
      what it had left, for positive, NODATA, NXDOMAIN and CNAME-negative
      answers alike. */
  lemma AgedPreparesAgain(name: Name, kind: nat, policy: Policy, m: Message, lifetime: nat, secs: nat)
    requires Replayable(name, kind, policy, m, lifetime) && secs < lifetime
    ensures var again := Prepare(name, kind, Aged(m, secs), policy);
      && again.Ok? && Supersedes(Aged(m, secs))
      && lifetime - secs <= again.value.lifetime
      && again.value.negative == IsNegative(kind, m)
  {
    hide LifetimeBound, CapRecords, IsNegative, Alike, All, AlikeMessages, WithRecords;
    var aged, left := Aged(m, secs), lifetime - secs;
    AgedFacts(m, secs, lifetime);
    NegativeAlike(kind, m, aged);
    AuthoritiesAbove(aged, left);
    BoundFloor(name, kind, policy, m, aged, left);
    var bound := LifetimeBound(name, kind, aged, policy).value;
    CappedShape(All(aged), policy.maxTtl, IsNegative(kind, aged), bound);
    CappedFloor(All(aged), policy.maxTtl, IsNegative(kind, aged), bound, left);
  }

  /** A shorter lifetime, as a restore may impose, is replayable too. */
  lemma ShorterIsReplayable(name: Name, kind: nat, policy: Policy, m: Message, lifetime: nat, shorter: nat)
    requires Replayable(name, kind, policy, m, lifetime) && 1 <= shorter <= lifetime
    ensures Replayable(name, kind, policy, m, shorter)
  {
    hide LifetimeBound, All;
  }

  lemma WholeSeconds(lifetime: nat, age: nat)
    requires lifetime <= MAX_TTL
    ensures Remaining(lifetime * SECOND, age) == Monus(lifetime, CeilSecs(age))
    ensures Remaining(lifetime * SECOND, age) > 0 ==> Elapsed(age) == CeilSecs(age) < lifetime
  {
    var up := CeilSecs(age);
    assert (up - 1) * SECOND < age <= up * SECOND || (age == 0 && up == 0);
    if up <= lifetime {
      assert Secs(lifetime * SECOND - age) == lifetime - up;
    }
  }

  lemma AgedTwice(m: Message, a: nat, b: nat)
    ensures Aged(Aged(m, a), b) == Aged(m, a + b)
  {
    assert Aged(Aged(m, a), b).answers == Aged(m, a + b).answers;
    assert Aged(Aged(m, a), b).authorities == Aged(m, a + b).authorities;
    assert Aged(Aged(m, a), b).additionals == Aged(m, a + b).additionals;
  }

  /** The lifetime a restore admits a prepared record with. */
  function RestoredLifetime(prepared: nat, remaining: nat): nat {
    Min(prepared, remaining)
  }

  /** The snapshot round trip.  An answer stored for `lifetime` seconds, saved at
      `age` and restored after `offline` nanoseconds under the same policy, is
      admitted whenever whole seconds are left, and then for exactly those: its
      rounded-down remainder less the rounded-up time offline. */
  lemma RoundTrip(name: Name, kind: nat, policy: Policy, wire: Message, lifetime: nat, age: nat, offline: nat)
    requires Replayable(name, kind, policy, wire, lifetime)
    requires Offline(offline) < Remaining(lifetime * SECOND, age)
    ensures var saved := Remaining(lifetime * SECOND, age);
      var record := Aged(wire, Elapsed(age));
      var left := saved - Offline(offline);
      var again := Prepare(name, kind, Aged(record, Offline(offline)), policy);
      && 1 <= saved <= MAX_TTL
      && again.Ok?
      && RestoredLifetime(again.value.lifetime, left) == left
      && again.value.negative == IsNegative(kind, wire)
      && Replayable(name, kind, policy, again.value.stored, left)
  {
    hide Replayable, Prepare, Aged, IsNegative, Remaining, Elapsed;
    assert lifetime <= MAX_TTL by {
      ReplayableBound(name, kind, policy, wire, lifetime);
    }
    WholeSeconds(lifetime, age);
    var gone := Elapsed(age) + Offline(offline);
    AgedTwice(wire, Elapsed(age), Offline(offline));
    AgedPreparesAgain(name, kind, policy, wire, lifetime, gone);
    PreparedIsReplayable(name, kind, policy, Aged(wire, gone));
    var again := Prepare(name, kind, Aged(wire, gone), policy).value;
    ShorterIsReplayable(name, kind, policy, again.stored, again.lifetime, lifetime - gone);
  }

  lemma ReplayableBound(name: Name, kind: nat, policy: Policy, m: Message, lifetime: nat)
    requires Replayable(name, kind, policy, m, lifetime)
    ensures 1 <= lifetime <= MAX_TTL
  {
  }

  /** No deadline moves: on the wall clock the restored answer expires no later
      than the saved one would have. */
  lemma DeadlineNeverMoves(lifetime: nat, age: nat, offline: nat)
    requires lifetime <= MAX_TTL && age <= lifetime * SECOND
    requires Offline(offline) < Remaining(lifetime * SECOND, age)
    ensures var left := Remaining(lifetime * SECOND, age) - Offline(offline);
      offline + left * SECOND <= lifetime * SECOND - age
  {
    WholeSeconds(lifetime, age);
    assert offline <= CeilSecs(offline) * SECOND;
    assert age <= CeilSecs(age) * SECOND;
  }

  /** The TTLs of a hit: aged by whole seconds, or fixed for a stale answer. */
  function ReplyTtl(ttl: nat, age: nat, stale: bool, staleTtl: nat): nat {
    if stale then staleTtl else Monus(ttl, Min(Secs(age), MAX_U32))
  }

  /** Every record of a fresh hit has lost exactly the whole seconds of its age and
      still has one to live; a stale hit carries the configured TTL. */
  lemma FreshHitTtls(name: Name, kind: nat, policy: Policy, m: Message, lifetime: nat, age: nat, staleTtl: nat)
    requires Replayable(name, kind, policy, m, lifetime) && age < lifetime * SECOND
    ensures forall k :: 0 <= k < |All(m)| ==>
      && 1 <= ReplyTtl(All(m)[k].ttl, age, false, staleTtl) == All(m)[k].ttl - age / SECOND
      && ReplyTtl(All(m)[k].ttl, age, true, staleTtl) == staleTtl
  {
    hide LifetimeBound, All;
    assert Secs(age) < lifetime;
  }
}
