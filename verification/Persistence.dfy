/** Clean snapshots of a whole cache: what is written, in which order, and what
    a restore admits. */
module Persistence {
  import opened Wrappers
  import opened Sequences
  import opened Scopes
  import opened CacheTypes
  import opened Responses
  import opened Knowledge
  import opened Snapshot
  import opened ShardState
  import opened Shards
  import opened Caches

  const HEADER_BYTES := 512
  const MAX_RECORD_BYTES := 96 * 1024
  const MAX_RECORDS := 16 * 1024 * 1024

  /** One record of a snapshot. */
  datatype Saved = Saved(key: Key, scope: Scope, remaining: nat, wire: Message)

  function Save(e: Entry, now: nat): Saved {
    Saved(e.key, e.scope, Remaining(e.lifetime, Age(e, now)), Aged(e.wire, Elapsed(Age(e, now))))
  }

  /** What a restore prepares from a record, or why it is skipped. */
  function Readmit(r: Saved, offline: nat, policy: Policy): Result<Prepared> {
    var left := Monus(r.remaining, Offline(offline));
    if left == 0 then Err(TtlZero)
    else if policy.bypass then Err(PolicyDisabled)
    else if !Supersedes(r.wire) then Err(UncacheableResponse)
    else
      var p := Prepare(r.key.name, r.key.kind, Aged(r.wire, Offline(offline)), policy);
      if p.Err? then p else Ok(p.value.(lifetime := RestoredLifetime(p.value.lifetime, left)))
  }

  /** `a` is `m` with every TTL lowered by `secs`, and nothing else changed. */
  ghost predicate OlderBy(m: Message, a: Message, secs: nat) {
    && a == m.(answers := a.answers, authorities := a.authorities, additionals := a.additionals)
    && Lowered(m.answers, a.answers, secs)
    && Lowered(m.authorities, a.authorities, secs)
    && Lowered(m.additionals, a.additionals, secs)
  }

  ghost predicate Lowered(r: seq<Record>, s: seq<Record>, secs: nat) {
    |s| == |r| && forall k :: 0 <= k < |r| ==> s[k] == r[k].(ttl := s[k].ttl) && s[k].ttl + secs == r[k].ttl
  }

  /** The seconds that a saved answer loses: its age and the time offline, each
      rounded up. */
  function SecondsLost(age: nat, offline: nat): nat {
    (age + SECOND - 1) / SECOND + (offline + SECOND - 1) / SECOND
  }

  ghost predicate RevivedFrom(key: Key, policy: Policy, negative: bool, older: Message, proof: nat, again: Message) {
    (negative ==> Proves(key.name, key.kind, older, proof)) && StoredTtls(older, policy, negative, proof, again)
  }

  /** The message that comes back: that of the saved answer with every TTL lowered by
      the seconds lost, stored as any response is; and on the wall clock no record
      outlives the one that was saved. */
  ghost predicate Revived(key: Key, policy: Policy, negative: bool, wire: Message, again: Message, age: nat,
                          offline: nat) {
    && (exists older, proof: nat ::
          OlderBy(wire, older, SecondsLost(age, offline)) && RevivedFrom(key, policy, negative, older, proof, again))
    && |All(again)| == |All(wire)|
    && forall k :: 0 <= k < |All(wire)| ==>
         && SameButTtl(All(again)[k], All(wire)[k])
         && offline + All(again)[k].ttl * SECOND + age <= All(wire)[k].ttl * SECOND
  }

  /** The round trip of one entry.  An answer of the cache, saved at `now` and
      readmitted under the same policy, comes back with exactly the whole
      seconds it had left less the seconds offline rounded up, in the same
      partition; and with none left it does not come back. */
  lemma SavedComesBack(e: Entry, policy: Policy, latest: nat, now: nat, offline: nat)
    requires Sane(e, policy, latest) && e.failure.None? && !policy.bypass
    ensures var saved := Save(e, now);
      var again := Readmit(saved, offline, policy);
      if Offline(offline) < saved.remaining then
        && again.Ok?
        && again.value.lifetime == saved.remaining - Offline(offline)
        && again.value.negative == e.negative
        && Replayable(e.key.name, e.key.kind, policy, again.value.stored, again.value.lifetime)
        && Revived(e.key, policy, e.negative, e.wire, again.value.stored, Age(e, now), offline)
      else again.Err?
  {
    hide Replayable, Prepare, Aged, IsNegative, Remaining, Elapsed, Offline;
    var saved := Save(e, now);
    if Offline(offline) < saved.remaining {
      var lifetime := e.lifetime / SECOND;
      assert lifetime * SECOND == e.lifetime;
      RoundTrip(e.key.name, e.key.kind, policy, e.wire, lifetime, Age(e, now), offline);
      ReplayableSupersedes(e.key.name, e.key.kind, policy, e.wire, lifetime, Elapsed(Age(e, now)));
      SavedRevives(e, policy, lifetime, now, offline);
    }
  }

  lemma SavedRevives(e: Entry, policy: Policy, lifetime: nat, now: nat, offline: nat)
    requires Replayable(e.key.name, e.key.kind, policy, e.wire, lifetime) && lifetime * SECOND == e.lifetime
    requires e.negative == IsNegative(e.key.kind, e.wire)
    requires Offline(offline) < Remaining(e.lifetime, Age(e, now))
    ensures var older := Aged(Aged(e.wire, Elapsed(Age(e, now))), Offline(offline));
      var p := Prepare(e.key.name, e.key.kind, older, policy);
      p.Ok? && Revived(e.key, policy, e.negative, e.wire, p.value.stored, Age(e, now), offline)
  {
    hide Replayable, Prepare, Aged, IsNegative, Revived, SecondsLost;
    var age, name, kind := Age(e, now), e.key.name, e.key.kind;
    RoundTrip(name, kind, policy, e.wire, lifetime, age, offline);
    LostIsGone(e, policy, lifetime, now, offline);
    var gone := SecondsLost(age, offline);
    AgedTwice(e.wire, Elapsed(age), Offline(offline));
    var older := Aged(e.wire, gone);
    AgedIsOlder(name, kind, policy, e.wire, lifetime, gone);
    var p := Prepare(name, kind, older, policy).value;
    PrepareIff(name, kind, older, policy);
    AnswersIff(kind, older);
    RevivesFrom(e.key, policy, e.wire, older, gone, p, age, offline);
  }

  /** The seconds lost are those that saving and restoring take off. */
  lemma LostIsGone(e: Entry, policy: Policy, lifetime: nat, now: nat, offline: nat)
    requires Replayable(e.key.name, e.key.kind, policy, e.wire, lifetime) && lifetime * SECOND == e.lifetime
    requires Offline(offline) < Remaining(e.lifetime, Age(e, now))
    ensures SecondsLost(Age(e, now), offline) == Elapsed(Age(e, now)) + Offline(offline) < lifetime
  {
    hide Replayable;
    ReplayableBound(e.key.name, e.key.kind, policy, e.wire, lifetime);
    WholeSeconds(lifetime, Age(e, now));
  }

  lemma AgedIsOlder(name: Name, kind: nat, policy: Policy, m: Message, lifetime: nat, secs: nat)
    requires Replayable(name, kind, policy, m, lifetime) && secs < lifetime
    ensures OlderBy(m, Aged(m, secs), secs)
  {
    hide LifetimeBound;
    forall k | 0 <= k < |m.answers| ensures lifetime <= m.answers[k].ttl {
      assert All(m)[k] == m.answers[k];
    }
    forall k | 0 <= k < |m.authorities| ensures lifetime <= m.authorities[k].ttl {
      assert All(m)[|m.answers| + k] == m.authorities[k];
    }
    forall k | 0 <= k < |m.additionals| ensures lifetime <= m.additionals[k].ttl {
      assert All(m)[|m.answers| + |m.authorities| + k] == m.additionals[k];
    }
  }

  lemma RevivesFrom(key: Key, policy: Policy, wire: Message, older: Message, gone: nat, p: Prepared,
                    age: nat, offline: nat)
    requires OlderBy(wire, older, gone) && gone == SecondsLost(age, offline)
    requires Prepare(key.name, key.kind, older, policy) == Ok(p)
    ensures Revived(key, policy, IsNegative(key.kind, older), wire, p.stored, age, offline)
  {
    hide Prepare, StoredTtls, IsNegative, Proves, SecondsLost, OlderBy, Answers;
    PrepareIff(key.name, key.kind, older, policy);
    AnswersIff(key.kind, older);
    var negative := IsNegative(key.kind, older);
    var proof: nat := 0;
    if negative {
      proof :| 0 < proof && Proves(key.name, key.kind, older, proof);
    }
    assert RevivedFrom(key, policy, negative, older, proof, p.stored);
    NoneOutlives(policy, negative, proof, wire, older, gone, p.stored, age, offline);
  }

  lemma NoneOutlives(policy: Policy, negative: bool, proof: nat, wire: Message, older: Message, gone: nat,
                     again: Message, age: nat, offline: nat)
    requires OlderBy(wire, older, gone) && gone == SecondsLost(age, offline)
    requires StoredTtls(older, policy, negative, proof, again)
    ensures |All(again)| == |All(wire)|
    ensures forall k :: 0 <= k < |All(wire)| ==>
      && SameButTtl(All(again)[k], All(wire)[k])
      && offline + All(again)[k].ttl * SECOND + age <= All(wire)[k].ttl * SECOND
  {
    hide KeptTtl, SecondsLost;
    LostCovers(age, offline);
    var bound := if negative then Min(Min(policy.maxTtl, policy.negativeCap), proof) else policy.maxTtl;
    forall k | 0 <= k < |All(wire)|
      ensures SameButTtl(All(again)[k], All(wire)[k])
      ensures offline + All(again)[k].ttl * SECOND + age <= All(wire)[k].ttl * SECOND
    {
      LoweredAt(wire, older, gone, k);
      KeptBelow(All(older), k, policy.maxTtl, negative, bound, All(again)[k].ttl);
      assert (All(again)[k].ttl + gone) * SECOND <= All(wire)[k].ttl * SECOND;
    }
  }

  lemma LoweredAt(wire: Message, older: Message, gone: nat, k: nat)
    requires OlderBy(wire, older, gone) && k < |All(wire)|
    ensures |All(older)| == |All(wire)|
    ensures SameButTtl(All(older)[k], All(wire)[k]) && All(older)[k].ttl + gone == All(wire)[k].ttl
  {
  }

  lemma LostCovers(age: nat, offline: nat)
    ensures age + offline <= SecondsLost(age, offline) * SECOND
  {
  }

  lemma ReplayableSupersedes(name: Name, kind: nat, policy: Policy, m: Message, lifetime: nat, secs: nat)
    requires Replayable(name, kind, policy, m, lifetime)
    ensures Supersedes(Aged(m, secs))
  {
  }

  /** Whatever a restore prepares can be stored. */
  lemma ReadmittedIsPreparable(r: Saved, offline: nat, policies: Policies)
    ensures Preparable(r.key, Readmit(r, offline, policies.For(r.key)), policies)
  {
    hide Replayable, Prepare, Aged, IsNegative, Offline;
    var again := Readmit(r, offline, policies.For(r.key));
    if again.Ok? {
      var aged := Aged(r.wire, Offline(offline));
      AgedSupersedes(r.wire, Offline(offline));
      PreparedIsReplayable(r.key.name, r.key.kind, policies.For(r.key), aged);
      var p := Prepare(r.key.name, r.key.kind, aged, policies.For(r.key)).value;
      ReplayableBound(r.key.name, r.key.kind, policies.For(r.key), p.stored, p.lifetime);
      ShorterIsReplayable(r.key.name, r.key.kind, policies.For(r.key), p.stored, p.lifetime, again.value.lifetime);
    }
  }

  lemma AgedSupersedes(m: Message, secs: nat)
    ensures Supersedes(Aged(m, secs)) == Supersedes(m)
  {
  }

  // ----- Writing -----

  /** An entry with its last use. */
  datatype Use = Use(entry: Entry, at: nat)

  ghost predicate Falling(s: seq<Use>) {
    forall i, j :: 0 <= i < j < |s| ==> s[i].at >= s[j].at
  }

  /** Puts `u` behind every entry used no earlier. */
  function InsertUse(s: seq<Use>, u: Use): (r: seq<Use>)
    ensures multiset(r) == multiset(s) + multiset{u}
  {
    if s == [] then [u]
    else
      assert s == [s[0]] + s[1..];
      if s[0].at >= u.at then [s[0]] + InsertUse(s[1..], u) else [u] + s
  }

  lemma {:induction false} InsertFalls(s: seq<Use>, u: Use)
    requires Falling(s)
    ensures Falling(InsertUse(s, u))
  {
    if s != [] && s[0].at >= u.at {
      InsertFalls(s[1..], u);
      RestBelow(s, u, InsertUse(s[1..], u));
    }
  }

  lemma RestBelow(s: seq<Use>, u: Use, rest: seq<Use>)
    requires s != [] && s[0].at >= u.at && multiset(rest) == multiset(s[1..]) + multiset{u}
    ensures Falling(s) ==> forall i :: 0 <= i < |rest| ==> s[0].at >= rest[i].at
  {
    if Falling(s) {
      forall i | 0 <= i < |rest| ensures s[0].at >= rest[i].at {
        assert rest[i] in multiset(rest);
        if rest[i] != u {
          assert rest[i] in s[1..];
        }
      }
    }
  }

  /** The answers of a list, with their last uses; failures are never saved. */
  function UsesOf(lru: seq<Entry>, accessed: map<nat, nat>): (r: seq<Use>)
    ensures forall u :: u in r ==> u.entry in lru && u.entry.failure.None?
    ensures forall e :: e in lru && e.failure.None? ==> Use(e, LastUse(e, accessed)) in r
    ensures forall u :: u in r ==> if u.entry.id in accessed then u.at == accessed[u.entry.id] else u.at == 0
  {
    if lru == [] then []
    else
      var n := |lru| - 1;
      assert lru == lru[..n] + [lru[n]];
      UsesOf(lru[..n], accessed) + (if lru[n].failure.None? then [Use(lru[n], LastUse(lru[n], accessed))] else [])
  }

  /** No answer is listed twice. */
  lemma {:induction false} UsesOnce(lru: seq<Entry>, accessed: map<nat, nat>)
    requires NoDuplicates(lru)
    ensures NoDuplicates(UsesOf(lru, accessed))
  {
    if lru != [] {
      var n := |lru| - 1;
      UsesOnce(lru[..n], accessed);
      var rest := UsesOf(lru[..n], accessed);
      forall i | 0 <= i < |rest| ensures rest[i].entry != lru[n] {
        assert rest[i] in rest;
      }
    }
  }

  function LastUse(e: Entry, accessed: map<nat, nat>): nat {
    if e.id in accessed then accessed[e.id] else 0
  }

  /** The answers of the first `k` shards, in no order that matters. */
  ghost function Gathered(shards: seq<Shard>, k: nat): multiset<Use>
    requires k <= |shards|
    reads shards
  {
    if k == 0 then multiset{}
    else
      var s := shards[k - 1];
      Gathered(shards, k - 1) + (if |s.parts| == 2 then Held(s.parts, s.uses.accessed) else multiset{})
  }

  ghost function Held(parts: seq<Partition>, accessed: map<nat, nat>): multiset<Use>
    requires |parts| == 2
  {
    multiset(UsesOf(parts[0].lru, accessed)) + multiset(UsesOf(parts[1].lru, accessed))
  }

  /** The bytes of a snapshot: its header and the lines of its records. */
  function Bytes(records: seq<Saved>, size: Saved -> nat): nat {
    if records == [] then HEADER_BYTES
    else
      var n := |records| - 1;
      Bytes(records[..n], size) + size(records[n])
  }

  /** Whether one more record is written: it has a whole second left and stays
      within the ceilings of records, of one line and of the file. */
  predicate Writable(records: seq<Saved>, r: Saved, size: Saved -> nat, maxBytes: nat) {
    && r.remaining > 0 && |records| < MAX_RECORDS
    && size(r) <= MAX_RECORD_BYTES && Bytes(records, size) + size(r) <= maxBytes
  }

  /** The records of the first `k` entries that can be written. */
  function SaveFirst(order: seq<Use>, k: nat, now: nat, size: Saved -> nat, maxBytes: nat): (records: seq<Saved>)
    requires k <= |order|
    ensures |records| <= Min(k, MAX_RECORDS) && Bytes(records, size) <= Max(HEADER_BYTES, maxBytes)
  {
    if k == 0 then []
    else
      var rest, r := SaveFirst(order, k - 1, now, size, maxBytes), Save(order[k - 1].entry, now);
      assert (rest + [r])[..|rest|] == rest;
      if Writable(rest, r, size, maxBytes) then rest + [r] else rest
  }

  /** Nothing that could be written is left out: an entry that was looked at is in the
      snapshot, or has no whole second left, or is above 96 KiB, or the snapshot has
      no room for it. */
  lemma {:induction false} WrittenIfItFits(order: seq<Use>, k: nat, now: nat, size: Saved -> nat, maxBytes: nat, p: nat)
    requires p < k <= |order|
    ensures var records, r := SaveFirst(order, k, now, size, maxBytes), Save(order[p].entry, now);
      || r in records || r.remaining == 0 || size(r) > 98304
      || |records| == 16777216 || Bytes(records, size) + size(r) > maxBytes
  {
    hide Save;
    var rest, last := SaveFirst(order, k - 1, now, size, maxBytes), Save(order[k - 1].entry, now);
    assert (rest + [last])[..|rest|] == rest;
    if p < k - 1 {
      WrittenIfItFits(order, k - 1, now, size, maxBytes, p);
    }
  }

  method Merge(order: seq<Use>, more: seq<Use>) returns (r: seq<Use>)
    requires Falling(order)
    ensures Falling(r) && multiset(r) == multiset(order) + multiset(more)
  {
    hide Falling, InsertUse;
    r := order;
    for i := 0 to |more|
      invariant Falling(r) && multiset(r) == multiset(order) + multiset(more[..i])
    {
      assert more[..i + 1] == more[..i] + [more[i]];
      InsertFalls(r, more[i]);
      r := InsertUse(r, more[i]);
    }
    assert more[..|more|] == more;
  }

  /** Collects every answer of the cache, the most recently used first. */
  method Collect(c: Cache) returns (order: seq<Use>)
    requires c.Valid()
    ensures Falling(order) && multiset(order) == Gathered(c.shards, |c.shards|)
  {
    hide Falling, Cache.Valid, UsesOf;
    order := [];
    assert Falling(order) by { NothingFalls(); }
    for i := 0 to |c.shards|
      invariant Falling(order) && multiset(order) == Gathered(c.shards, i)
    {
      var s := c.shards[i];
      if |s.parts| == 2 {
        order := Merge(order, UsesOf(s.parts[0].lru, s.uses.accessed));
        order := Merge(order, UsesOf(s.parts[1].lru, s.uses.accessed));
      }
    }
  }

  /** Writes the answers of the cache that have a whole second left, the most
      recently used first, within the ceilings, until `cut` entries were looked at. */
  method Write(c: Cache, now: nat, cut: nat, size: Saved -> nat, maxBytes: nat)
    returns (records: seq<Saved>, order: seq<Use>)
    requires c.Valid()
    ensures Falling(order) && multiset(order) == Gathered(c.shards, |c.shards|)
    ensures records == SaveFirst(order, Min(cut, |order|), now, size, maxBytes)
  {
    hide Falling, Cache.Valid, Gathered, Save, SaveFirst, Bytes;
    order := Collect(c);
    records := [];
    var bytes := HEADER_BYTES;
    NothingSaved(order, now, size, maxBytes);
    for i := 0 to Min(cut, |order|)
      invariant records == SaveFirst(order, i, now, size, maxBytes) && bytes == Bytes(records, size)
    {
      var r := Save(order[i].entry, now);
      SaveNext(order, i, now, size, maxBytes);
      if r.remaining > 0 && |records| < MAX_RECORDS && size(r) <= MAX_RECORD_BYTES && bytes + size(r) <= maxBytes {
        records := records + [r];
        bytes := bytes + size(r);
      }
    }
  }

  lemma NothingSaved(order: seq<Use>, now: nat, size: Saved -> nat, maxBytes: nat)
    ensures SaveFirst(order, 0, now, size, maxBytes) == [] && Bytes([], size) == HEADER_BYTES
  {
  }

  lemma SaveNext(order: seq<Use>, i: nat, now: nat, size: Saved -> nat, maxBytes: nat)
    requires i < |order|
    ensures var records, r := SaveFirst(order, i, now, size, maxBytes), Save(order[i].entry, now);
      && Bytes(records + [r], size) == Bytes(records, size) + size(r)
      && SaveFirst(order, i + 1, now, size, maxBytes) ==
         if Writable(records, r, size, maxBytes) then records + [r] else records
  {
    hide Save, Writable;
    var records, r := SaveFirst(order, i, now, size, maxBytes), Save(order[i].entry, now);
    assert (records + [r])[..|records|] == records;
  }

  lemma NothingFalls()
    ensures Falling([])
  {
  }

  // ----- Restoring -----

  /** The progress of a restore in one shard: what was there stays unless past
      its retention, and everything new carries a stamp of this restore. */
  ghost predicate Loading(before: Past, p: Past, accessed: map<nat, nat>, clock: nat, floor: nat, total: nat,
                          left: nat, now: nat) {
    && total <= floor <= clock
    && p.latest <= now
    && (forall e :: e in before.resident ==> e.id <= floor)
    && (forall e :: e in p.resident && e.id <= floor ==> e in before.resident)
    && (forall e :: e in before.resident && e !in p.resident ==> !Retained(e, now))
    && (forall e :: e in p.resident && e.id > floor ==>
          e.inserted == now && 0 < e.retention && e.id in accessed && left < accessed[e.id] <= total)
    && (before.resident == {} && before.recency ==> p.recency)
    && Aside(before, p)
  }

  /** What a restore leaves alone: refreshes and cooldowns; the history only grows. */
  ghost predicate Aside(before: Past, p: Past) {
    p.refreshAdmitted == before.refreshAdmitted && p.cooling == before.cooling && before.log <= p.log
  }

  lemma LoadStep(before: Past, p: Past, p': Past, accessed: map<nat, nat>, accessed': map<nat, nat>, clock: nat,
                 floor: nat,
                 total: nat, left: nat, now: nat, key: Key, stored: bool, entry: Option<Entry>)
    requires Loading(before, p, accessed, clock, floor, total, left, now) && 0 < left <= total
    requires Restoring(p, p', key, now, stored, entry) && p'.latest == now && p'.cooling == p.cooling
    requires forall e :: e in p.resident ==> e.id <= clock
    requires entry.Some? ==> entry.value.id == clock + 1 && entry.value.inserted == now && 0 < entry.value.retention
    requires accessed' == if stored then accessed[clock + 1 := left] else accessed
    requires p'.recency == (p.recency && (stored ==> Older(left, p'.resident, accessed, clock, entry.value.negative)))
    ensures Loading(before, p', accessed', clock + One(stored), floor, total, left - 1, now)
    ensures forall e :: e in p.resident && e.id > floor ==>
      e in p'.resident && LastUse(e, accessed') == LastUse(e, accessed)
  {
  }

  /** Every shard of the cache is at one point of a restore. */
  ghost predicate AllLoading(c: Cache, before: seq<Past>, floors: seq<nat>, total: nat, left: nat, now: nat)
    reads c.shards
  {
    && |before| == |floors| == |c.shards|
    && forall j :: 0 <= j < |c.shards| ==>
         Loading(before[j], c.shards[j].past, c.shards[j].uses.accessed, c.shards[j].clock, floors[j], total, left, now)
  }

  /** What a record becomes in a shard, field by field. */
  ghost predicate Describes(s: Shard, r: Saved, offline: nat, charge: nat, now: nat, e: Entry) {
    var policy := s.policy.For(r.key);
    var again := Readmit(r, offline, policy);
    && e.key == r.key && e.scope == r.scope && e.failure.None? && e.inserted == now && e.charge == charge
    && again.Ok? && e.lifetime == again.value.lifetime * SECOND && e.wire == again.value.stored
    && e.negative == again.value.negative
    && e.retention == e.lifetime + (if policy.stale && !e.negative then s.staleRetention else 0)
    && e.prefetch == policy.prefetch
  }

  /** The entry is held, was admitted above `floor` and was last used at `stamp`. */
  ghost predicate There(s: Shard, e: Entry, stamp: nat, floor: nat)
    reads s
  {
    && e in s.past.resident && e.id > floor
    && e.id in s.uses.accessed && s.uses.accessed[e.id] == stamp
  }

  /** Nothing is past its retention. */
  ghost predicate Calm(resident: set<Entry>, now: nat) {
    forall e :: e in resident ==> Retained(e, now)
  }

  ghost predicate AllCalm(pasts: seq<Past>, now: nat) {
    forall j :: 0 <= j < |pasts| ==> Calm(pasts[j].resident, now)
  }

  lemma CalmLoading(before: Past, p: Past, accessed: map<nat, nat>, clock: nat, floor: nat, total: nat, left: nat,
                    now: nat)
    requires Loading(before, p, accessed, clock, floor, total, left, now) && Calm(before.resident, now)
    ensures Calm(p.resident, now)
  {
  }

  /** The record cannot be prepared again, or has no place beside what is there. */
  ghost predicate Lacks(s: Shard, r: Saved, offline: nat, charge: nat, now: nat)
    reads s
  {
    var again := Readmit(r, offline, s.policy.For(r.key));
    again.Err? || !Roomy(s.View(), s.maxVariants, s.NewAnswer(0, r.key, again.value, r.scope, now, charge))
  }

  /** Only restored entries joined on the way from `s` to `s'`. */
  ghost predicate Grown(s: State, s': State) {
    || s' == s.(latest := s'.latest)
    || (|s.parts| == 2 && exists e: Entry, stamp: nat :: s' == Inserted(s.(latest := s'.latest), e, Some(stamp), false))
  }

  lemma StillNoRoom(s: State, s': State, maxVariants: nat, e: Entry)
    requires Grown(s, s') && !Roomy(s, maxVariants, e)
    ensures !Roomy(s', maxVariants, e)
  {
    hide Overlap, Below;
    if s' != s.(latest := s'.latest) {
      var x, stamp: nat :| s' == Inserted(s.(latest := s'.latest), x, Some(stamp), false);
      assert forall y :: y in s.resident ==> y in s'.resident;
    }
  }

  lemma NoRoomAnyId(s: State, maxVariants: nat, e: Entry, id: nat)
    ensures Roomy(s, maxVariants, e.(id := id)) == Roomy(s, maxVariants, e)
  {
  }

  /** Admits one record with its use stamp. */
  method LoadOne(c: Cache, r: Saved, charge: nat, offline: nat, now: nat, stamp: nat,
                 ghost before: seq<Past>, ghost floors: seq<nat>, ghost total: nat)
    returns (entry: Option<Entry>)
    requires c.Valid() && AllLoading(c, before, floors, total, stamp, now) && 0 < stamp <= total
    modifies c.shards
    ensures c.Valid() && AllLoading(c, before, floors, total, stamp - 1, now)
    ensures var i := c.Route(r.key); entry.Some? ==>
      Describes(c.shards[i], r, offline, charge, now, entry.value) &&
      There(c.shards[i], entry.value, stamp, floors[i])
    ensures forall j :: 0 <= j < |c.shards| ==> forall e ::
      e in old(c.shards[j].past.resident) && e.id > floors[j] ==>
        e in c.shards[j].past.resident && Stamp(c.shards[j], e) == old(Stamp(c.shards[j], e))
    ensures AllCalm(before, now) ==> forall j :: 0 <= j < |c.shards| ==>
      Grown(old(c.shards[j].View()), c.shards[j].View())
    ensures AllCalm(before, now) && entry.None? ==> Lacks(c.shards[c.Route(r.key)], r, offline, charge, now)
  {
    hide Shard.Valid, Dealt, Loading, Restoring, Older, Retained, Readmit, Preparable, Epoch, Shard.View, Inserted,
      Roomy, Describes;
    var i := c.Route(r.key);
    var s := c.shards[i];
    assert Joined(s, c.epoch);
    if AllCalm(before, now) {
      CalmLoading(before[i], s.past, s.uses.accessed, s.clock, floors[i], total, stamp, now);
    }
    entry := Reload(s, r, charge, offline, now, stamp, before[i], floors[i], total);
    forall j | 0 <= j < |c.shards|
      ensures Loading(before[j], c.shards[j].past, c.shards[j].uses.accessed, c.shards[j].clock, floors[j], total,
                      stamp - 1, now)
    {
      if j != i {
        LoadIdle(before[j], c.shards[j].past, c.shards[j].uses.accessed, c.shards[j].clock, floors[j], total, stamp,
                 now);
      }
    }
  }

  function Stamp(s: Shard, e: Entry): nat
    reads s
  {
    LastUse(e, s.uses.accessed)
  }

  lemma LoadIdle(before: Past, p: Past, accessed: map<nat, nat>, clock: nat, floor: nat, total: nat, left: nat,
                 now: nat)
    requires Loading(before, p, accessed, clock, floor, total, left, now) && 0 < left
    ensures Loading(before, p, accessed, clock, floor, total, left - 1, now)
  {
    hide Retained;
  }

  /** One record in its shard. */
  method Reload(s: Shard, r: Saved, charge: nat, offline: nat, now: nat, stamp: nat,
                ghost before: Past, ghost floor: nat, ghost total: nat)
    returns (entry: Option<Entry>)
    requires s.Valid() && Loading(before, s.past, s.uses.accessed, s.clock, floor, total, stamp,
                                  now) && 0 < stamp <= total
    modifies s
    ensures s.Valid() && Epoch(s.past.log) == old(Epoch(s.past.log))
    ensures Loading(before, s.past, s.uses.accessed, s.clock, floor, total, stamp - 1, now)
    ensures entry.Some? ==>
      Describes(s, r, offline, charge, now, entry.value) && There(s, entry.value, stamp, floor)
    ensures forall e :: e in old(s.past.resident) && e.id > floor ==>
      e in s.past.resident && Stamp(s, e) == old(Stamp(s, e))
    ensures Calm(old(s.past.resident), now) ==> Grown(old(s.View()), s.View())
    ensures Calm(old(s.past.resident), now) && entry.None? ==> Lacks(s, r, offline, charge, now)
  {
    hide Loading, Restoring, Older, Retained, Readmit, Epoch, Shard.Valid, Shard.View, Describes, Grown, Lacks, Calm;
    LoadingBounds(before, s.past, s.uses.accessed, s.clock, floor, total, stamp, now);
    IdsBelow(s);
    entry := Readd(s, r, charge, offline, now, stamp);
    LoadStep(before, old(s.past), s.past, old(s.uses.accessed), s.uses.accessed, old(s.clock), floor, total, stamp, now,
             r.key, entry.Some?, entry);
    RestoredThere(old(s.past), s.past, r.key, now, entry.Some?, entry);
  }

  lemma IdsBelow(s: Shard)
    requires s.Valid()
    ensures forall e :: e in s.past.resident ==> e.id <= s.clock
  {
    hide Good, Partitioned, Current, RevocationHolds, Annals;
    NewId(s.View(), s.maxVariants, s.policy);
  }

  /** Prepares one record again and restores it. */
  method Readd(s: Shard, r: Saved, charge: nat, offline: nat, now: nat, stamp: nat) returns (entry: Option<Entry>)
    requires s.Valid() && s.past.latest <= now && stamp <= s.clock
    modifies s
    ensures s.Valid() && Epoch(s.past.log) == old(Epoch(s.past.log)) && s.past.latest == now
    ensures s.past.cooling == old(s.past.cooling)
    ensures Restoring(old(s.past), s.past, r.key, now, entry.Some?, entry)
    ensures s.clock == old(s.clock) + One(entry.Some?)
    ensures s.uses.accessed ==
      if entry.Some? then old(s.uses.accessed)[old(s.clock) + 1 := stamp] else old(s.uses.accessed)
    ensures s.past.recency == (old(s.past.recency) && (entry.Some? ==>
                                 Older(stamp, s.past.resident, old(s.uses.accessed), old(s.clock),
                                       entry.value.negative)))
    ensures entry.Some? ==>
      entry.value.id == old(s.clock) + 1 && entry.value.inserted == now && 0 < entry.value.retention
    ensures entry.Some? ==> Describes(s, r, offline, charge, now, entry.value)
    ensures Calm(old(s.past.resident), now) ==> Grown(old(s.View()), s.View())
    ensures Calm(old(s.past.resident), now) && entry.None? ==> Lacks(s, r, offline, charge, now)
  {
    hide Restoring, Older, Retained, Readmit, Preparable, Epoch, Shard.Valid, Inserted, Roomy, Recent;
    var prepared := Readmit(r, offline, s.policy.For(r.key));
    ReadmittedIsPreparable(r, offline, s.policy);
    PreparedLifetime(r.key, prepared, s.policy);
    var id := s.clock + 1;
    var d := s.Restore(r.key, prepared, r.scope, charge, now, stamp);
    entry := s.Kept(id, r.key, prepared, r.scope, now, charge, d);
    if Calm(old(s.past.resident), now) && prepared.Ok? && entry.None? {
      NoRoomAnyId(old(s.View()), s.maxVariants, s.NewAnswer(id, r.key, prepared.value, r.scope, now, charge), 0);
      RoomyLater(old(s.View()), s.maxVariants, s.NewAnswer(0, r.key, prepared.value, r.scope, now, charge), now);
    }
  }

  lemma RestoredThere(p: Past, p': Past, key: Key, now: nat, stored: bool, entry: Option<Entry>)
    requires Restoring(p, p', key, now, stored, entry)
    ensures entry.Some? ==> entry.value in p'.resident
  {
  }

  lemma LoadingBounds(before: Past, p: Past, accessed: map<nat, nat>, clock: nat, floor: nat, total: nat, left: nat,
                      now: nat)
    requires Loading(before, p, accessed, clock, floor, total, left, now)
    ensures total <= floor <= clock && p.latest <= now
  {
  }

  /** Lifts every shard's clock above the stamps of this restore. */
  method LiftAll(c: Cache, total: nat, now: nat) returns (floors: seq<nat>)
    requires c.Valid() && forall j :: 0 <= j < |c.shards| ==> c.shards[j].past.latest <= now
    modifies c.shards
    ensures c.Valid()
    ensures AllLoading(c, old(PastsOf(c.shards)), floors, total, total, now)
  {
    hide Shard.Valid, Dealt, Loading, Shard.View;
    floors := [];
    for i := 0 to |c.shards|
      invariant |floors| == i && c.Valid()
      invariant forall j :: 0 <= j < |c.shards| ==> c.shards[j].past == old(c.shards[j].past)
      invariant forall j :: 0 <= j < i ==>
        Loading(c.shards[j].past, c.shards[j].past, c.shards[j].uses.accessed, c.shards[j].clock, floors[j], total,
                total, now)
    {
      var s := c.shards[i];
      assert Joined(s, c.epoch);
      var floor := LiftOne(s, total, now);
      floors := floors + [floor];
    }
  }

  method LiftOne(s: Shard, total: nat, now: nat) returns (floor: nat)
    requires s.Valid() && s.past.latest <= now
    modifies s`clock
    ensures s.Valid()
    ensures Loading(s.past, s.past, s.uses.accessed, s.clock, floor, total, total, now)
  {
    hide Good, Partitioned, Current, RevocationHolds, Retained;
    NewId(s.View(), s.maxVariants, s.policy);
    floor := s.Lift(total);
  }

  /** Takes back what a failed restore admitted, and nothing else. */
  method UnloadAll(c: Cache, floors: seq<nat>, ghost before: seq<Past>, ghost total: nat, ghost left: nat, now: nat)
    requires c.Valid() && AllLoading(c, before, floors, total, left, now)
    modifies c.shards
    ensures c.Valid()
    ensures forall j :: 0 <= j < |c.shards| ==> Undone(before[j], c.shards[j].past, now)
  {
    hide Shard.Valid, Dealt, Loading, Shard.View, Undone;
    for i := 0 to |c.shards|
      invariant c.Valid() && |before| == |floors| == |c.shards|
      invariant forall j :: 0 <= j < i ==> Undone(before[j], c.shards[j].past, now)
      invariant forall j :: i <= j < |c.shards| ==>
        Loading(before[j], c.shards[j].past, c.shards[j].uses.accessed, c.shards[j].clock, floors[j], total, left, now)
    {
      var s := c.shards[i];
      assert Joined(s, c.epoch);
      UnloadOne(s, before[i], floors[i], total, left, now);
    }
  }

  method UnloadOne(s: Shard, ghost before: Past, floor: nat, ghost total: nat, ghost left: nat, now: nat)
    requires s.Valid() && Loading(before, s.past, s.uses.accessed, s.clock, floor, total, left, now)
    modifies s
    ensures s.Valid() && Epoch(s.past.log) == old(Epoch(s.past.log))
    ensures Undone(before, s.past, now)
  {
    hide Shard.Valid, Retained, Epoch;
    s.Unload(floor);
  }

  /** The entries are those from before, less what was past its retention. */
  ghost predicate Undone(before: Past, p: Past, now: nat) {
    && p.resident <= before.resident
    && (forall e :: e in before.resident && e !in p.resident ==> !Retained(e, now))
    && Aside(before, p) && p.latest <= now
  }

  /** A finished restore: nothing kept was lost, what is new ranks below every
      later use, and a shard that was empty is still in order of use. */
  ghost predicate Loaded(before: Past, p: Past, accessed: map<nat, nat>, clock: nat, total: nat, now: nat) {
    && (forall e :: e in before.resident && e !in p.resident ==> !Retained(e, now))
    && total <= clock
    && (forall e :: e in p.resident && e !in before.resident ==> e.id in accessed && accessed[e.id] <= total)
    && (before.resident == {} && before.recency ==> p.recency)
    && Aside(before, p) && p.latest <= now
  }

  lemma LoadingEnds(before: Past, p: Past, accessed: map<nat, nat>, clock: nat, floor: nat, total: nat, left: nat,
                    now: nat)
    requires Loading(before, p, accessed, clock, floor, total, left, now)
    ensures Loaded(before, p, accessed, clock, total, now)
  {
    hide Retained;
  }

  /** Each record looked at so far is held, as what it became and with the stamp
      of its place in the file, or has no place in what is there now. */
  ghost predicate Admitted(c: Cache, records: seq<Saved>, charges: seq<nat>, offline: nat, now: nat,
                           admitted: seq<Option<Entry>>,
                           floors: seq<nat>, calm: bool)
    reads c.shards
  {
    && |floors| == |c.shards| > 0
    && |admitted| <= |records| == |charges|
    && forall p :: 0 <= p < |admitted| ==>
         if admitted[p].Some? then
           Landed(c, records[p], offline, charges[p], now, admitted[p].value, |records| - p, floors)
         else calm ==> Lacks(c.shards[c.Route(records[p].key)], records[p], offline, charges[p], now)
  }

  ghost predicate Landed(c: Cache, r: Saved, offline: nat, charge: nat, now: nat, e: Entry, stamp: nat,
                         floors: seq<nat>)
    requires |floors| == |c.shards| > 0
    reads c.shards
  {
    var i := c.Route(r.key);
    && Describes(c.shards[i], r, offline, charge, now, e)
    && There(c.shards[i], e, stamp, floors[i])
  }

  /** Admits the next record; those before it stay as they are. */
  method LoadNext(c: Cache, records: seq<Saved>, charges: seq<nat>, offline: nat, now: nat, ghost before: seq<Past>,
                  ghost floors: seq<nat>, admitted: seq<Option<Entry>>)
    returns (entry: Option<Entry>)
    requires c.Valid() && |admitted| < |records|
    requires AllLoading(c, before, floors, |records|, |records| - |admitted|, now)
    requires Admitted(c, records, charges, offline, now, admitted, floors, AllCalm(before, now))
    modifies c.shards
    ensures c.Valid()
    ensures AllLoading(c, before, floors, |records|, |records| - |admitted| - 1, now)
    ensures Admitted(c, records, charges, offline, now, admitted + [entry], floors, AllCalm(before, now))
  {
    hide Cache.Valid, Loading, Describes, Shard.View, Grown, Roomy, Calm, AllCalm, Readmit;
    var k := |admitted|;
    entry := LoadOne(c, records[k], charges[k], offline, now, |records| - k, before, floors, |records|);
    var more := admitted + [entry];
    forall p | 0 <= p <= k
      ensures if more[p].Some? then
                Landed(c, records[p], offline, charges[p], now, more[p].value, |records| - p, floors)
              else AllCalm(before, now) ==> Lacks(c.shards[c.Route(records[p].key)], records[p], offline, charges[p],
                                                  now)
    {
      if p < k && admitted[p].Some? {
        assert old(Landed(c, records[p], offline, charges[p], now, admitted[p].value, |records| - p, floors));
      } else if p < k && AllCalm(before, now) {
        var s := c.shards[c.Route(records[p].key)];
        assert old(Lacks(s, records[p], offline, charges[p], now));
        var again := Readmit(records[p], offline, s.policy.For(records[p].key));
        if again.Ok? {
          StillNoRoom(old(s.View()), s.View(), s.maxVariants,
                      s.NewAnswer(0, records[p].key, again.value, records[p].scope, now, charges[p]));
        }
      }
    }
  }

  /** Admits records in file order until `cut`, or until one does not decode. */
  method LoadAll(c: Cache, records: seq<Saved>, charges: seq<nat>, offline: nat, now: nat, cut: nat, bad: Option<nat>,
                 ghost before: seq<Past>, ghost floors: seq<nat>)
    returns (ok: bool, admitted: seq<Option<Entry>>)
    requires c.Valid() && |charges| == |records|
    requires AllLoading(c, before, floors, |records|, |records|, now)
    modifies c.shards
    ensures c.Valid()
    ensures ok <==> !(bad.Some? && bad.value < Min(cut, |records|))
    ensures Admitted(c, records, charges, offline, now, admitted, floors, AllCalm(before, now))
    ensures AllLoading(c, before, floors, |records|, |records| - |admitted|, now)
    ensures |admitted| == if ok then Min(cut, |records|) else bad.value
  {
    hide Cache.Valid, AllLoading, Landed, Shard.View, Lacks, AllCalm;
    ValidCache(c, before, floors, |records|, |records|, now);
    admitted := [];
    for k := 0 to Min(cut, |records|)
      invariant c.Valid() && AllLoading(c, before, floors, |records|, |records| - k, now)
      invariant |admitted| == k && Admitted(c, records, charges, offline, now, admitted, floors, AllCalm(before, now))
      invariant bad.Some? ==> k <= bad.value
    {
      if bad == Some(k) {
        return false, admitted;
      }
      var entry := LoadNext(c, records, charges, offline, now, before, floors, admitted);
      admitted := admitted + [entry];
    }
    ok := true;
  }

  lemma ValidCache(c: Cache, before: seq<Past>, floors: seq<nat>, total: nat, left: nat, now: nat)
    requires c.Valid() && AllLoading(c, before, floors, total, left, now)
    ensures |floors| == |c.shards| > 0
  {
    hide Shard.Valid, Dealt, Loading;
  }

  /** Restores a snapshot.  A record that does not decode takes back everything
      that was admitted.  Otherwise every admitted record is still there at the
      end, with the stamp of its place in the file, below every later use; and a
      record was skipped only if it cannot be prepared again or has no place
      beside the others, when nothing in the cache was past its retention. */
  method RestoreSnapshot(c: Cache, records: seq<Saved>, charges: seq<nat>, offline: nat, now: nat, cut: nat,
                         bad: Option<nat>)
    returns (ok: bool, admitted: seq<Option<Entry>>, floors: seq<nat>)
    requires c.Valid() && |charges| == |records|
    requires forall j :: 0 <= j < |c.shards| ==> c.shards[j].past.latest <= now
    modifies c.shards
    ensures c.Valid()
    ensures ok <==> !(bad.Some? && bad.value < Min(cut, |records|))
    ensures !ok ==> forall j :: 0 <= j < |c.shards| ==> Undone(old(c.shards[j].past), c.shards[j].past, now)
    ensures ok ==> |admitted| == Min(cut, |records|)
    ensures ok ==> Admitted(c, records, charges, offline, now, admitted, floors, AllCalm(old(PastsOf(c.shards)), now))
    ensures ok ==> forall j :: 0 <= j < |c.shards| ==>
      Loaded(old(c.shards[j].past), c.shards[j].past, c.shards[j].uses.accessed, c.shards[j].clock, |records|, now)
  {
    hide Cache.Valid, Loading, Undone, Loaded, Admitted, Shard.View, AllCalm;
    ghost var before := PastsOf(c.shards);
    floors := LiftAll(c, |records|, now);
    ok, admitted := LoadAll(c, records, charges, offline, now, cut, bad, before, floors);
    if ok {
      AllLoaded(c, before, floors, |records|, |records| - |admitted|, now);
    } else {
      UnloadAll(c, floors, before, |records|, |records| - |admitted|, now);
    }
  }

  lemma AllLoaded(c: Cache, before: seq<Past>, floors: seq<nat>, total: nat, left: nat, now: nat)
    requires AllLoading(c, before, floors, total, left, now)
    ensures forall j :: 0 <= j < |c.shards| ==>
      Loaded(before[j], c.shards[j].past, c.shards[j].uses.accessed, c.shards[j].clock, total, now)
  {
    hide Loading, Loaded;
    forall j | 0 <= j < |c.shards|
      ensures Loaded(before[j], c.shards[j].past, c.shards[j].uses.accessed, c.shards[j].clock, total, now)
    {
      LoadingEnds(before[j], c.shards[j].past, c.shards[j].uses.accessed, c.shards[j].clock, floors[j], total, left,
                  now);
    }
  }

  // ----- The whole round trip -----

  /** The record was saved from `e`, an answer that a shard could hold. */
  ghost predicate SavedFrom(r: Saved, e: Entry, policies: Policies, now: nat) {
    r == Save(e, now) && e.failure.None? && exists latest: nat :: Sane(e, policies.For(e.key), latest)
  }

  lemma {:induction false} GatheredIsHeld(shards: seq<Shard>, k: nat, u: Use) returns (j: nat)
    requires k <= |shards| && u in Gathered(shards, k)
    ensures j < k && |shards[j].parts| == 2 && u.entry in shards[j].parts[0].lru + shards[j].parts[1].lru
    ensures u.entry.failure.None?
  {
    var s := shards[k - 1];
    if |s.parts| == 2 && u in Held(s.parts, s.uses.accessed) {
      j := k - 1;
    } else {
      j := GatheredIsHeld(shards, k - 1, u);
    }
  }

  lemma HeldIsSane(s: Shard, e: Entry)
    requires s.Valid() && |s.parts| == 2 && e in s.parts[0].lru + s.parts[1].lru
    ensures Sane(e, s.policy.For(e.key), s.past.latest) && e in s.past.resident
  {
    hide Filed, Numbered, Tracked, Recent, Partitioned, Current, RevocationHolds, Annals, Settled, Sane, Charges;
    SideListed(s.parts, s.past.resident, s.uses.readers);
    assert e in s.past.resident;
  }

  /** Every record is that of one of the entries looked at, and has time left. */
  lemma {:induction false} RecordsAreSaved(order: seq<Use>, k: nat, now: nat, size: Saved -> nat, maxBytes: nat,
                                           i: nat) returns (p: nat)
    requires k <= |order| && i < |SaveFirst(order, k, now, size, maxBytes)|
    ensures p < k && SaveFirst(order, k, now, size, maxBytes)[i] == Save(order[p].entry, now)
    ensures SaveFirst(order, k, now, size, maxBytes)[i].remaining > 0
  {
    hide Save;
    if i < |SaveFirst(order, k - 1, now, size, maxBytes)| {
      p := RecordsAreSaved(order, k - 1, now, size, maxBytes, i);
    } else {
      p := k - 1;
    }
  }

  lemma SavedEntry(c: Cache, policies: Policies, order: seq<Use>, cut: nat, now: nat, size: Saved -> nat,
                   maxBytes: nat, i: nat)
    returns (e: Entry, j: nat)
    requires c.Valid() && (forall j :: 0 <= j < |c.shards| ==> c.shards[j].policy == policies)
    requires multiset(order) == Gathered(c.shards, |c.shards|) && cut <= |order|
    requires i < |SaveFirst(order, cut, now, size, maxBytes)|
    ensures SavedFrom(SaveFirst(order, cut, now, size, maxBytes)[i], e, policies, now)
    ensures j < |c.shards| && e in c.shards[j].past.resident && Sane(e, policies.For(e.key), c.shards[j].past.latest)
  {
    hide Shard.Valid, Dealt, Save, Sane, Gathered, SaveFirst;
    var p := RecordsAreSaved(order, cut, now, size, maxBytes, i);
    assert order[p] in multiset(order);
    j := GatheredIsHeld(c.shards, |c.shards|, order[p]);
    assert Joined(c.shards[j], c.epoch);
    e := order[p].entry;
    HeldIsSane(c.shards[j], e);
  }

  /** What became of one record: it came back as the same answer, record by record
      and for exactly the whole seconds it had left less those offline; or it had
      none left, its key is bypassed, or there was no place for it. */
  ghost predicate CameBack(c: Cache, r: Saved, e: Entry, policies: Policies, saved: nat, offline: nat, charge: nat,
                           now: nat, x: Option<Entry>)
    requires |c.shards| > 0
    reads c.shards
  {
    var left, off := SecondsLeft(e, saved), (offline + SECOND - 1) / SECOND;
    if x.Some? then
      && off < left
      && var s, policy := c.shards[c.Route(r.key)], policies.For(e.key);
         && x.value in s.past.resident
         && x.value.key == e.key && x.value.scope == e.scope && x.value.failure.None? && x.value.negative == e.negative
         && x.value.inserted == now && x.value.charge == charge
         && x.value.lifetime == (left - off) * SECOND
         && x.value.retention == x.value.lifetime + (if policy.stale && !e.negative then s.staleRetention else 0)
         && Revived(e.key, policy, e.negative, e.wire, x.value.wire, Age(e, saved), offline)
    else
      left <= off || policies.For(e.key).bypass || NoPlace(c.shards[c.Route(r.key)], e, charge)
  }

  /** The whole seconds that an entry has left. */
  function SecondsLeft(e: Entry, now: nat): nat {
    if e.inserted <= now then Monus(e.lifetime, now - e.inserted) / SECOND else e.lifetime / SECOND
  }

  /** There is no place for such an answer beside what is there: its partition has
      as many entries or bytes as it may, its key as many variants, or one of them
      overlaps it. */
  ghost predicate NoPlace(s: Shard, e: Entry, charge: nat)
    reads s
  {
    |s.parts| == 2 ==>
      var p := s.parts[if e.negative then 1 else 0];
      || |p.lru| >= p.maxEntries || p.charged + charge > p.maxBytes
      || |Bucket(s.buckets, e.key)| >= s.maxVariants
      || exists x :: x in s.past.resident && x.key == e.key && Overlap(x.scope, e.scope)
  }

  lemma LeftIsRemaining(e: Entry, policy: Policy, latest: nat, now: nat, offline: nat)
    requires Sane(e, policy, latest) && e.failure.None?
    ensures var left, off := SecondsLeft(e, now), (offline + SECOND - 1) / SECOND;
      && Remaining(e.lifetime, Age(e, now)) == left
      && (Offline(offline) < left <==> off < left) && (off < left ==> Offline(offline) == off)
  {
    hide IsNegative;
    ReplayableBound(e.key.name, e.key.kind, policy, e.wire, e.lifetime / SECOND);
    hide Replayable;
  }

  lemma OneCameBack(c: Cache, r: Saved, e: Entry, policies: Policies, saved: nat, offline: nat, charge: nat,
                    now: nat, x: Option<Entry>, stamp: nat, floors: seq<nat>)
    requires |floors| == |c.shards| > 0 && SavedFrom(r, e, policies, saved)
    requires c.shards[c.Route(r.key)].policy == policies
    requires if x.Some? then Landed(c, r, offline, charge, now, x.value, stamp, floors)
      else Lacks(c.shards[c.Route(r.key)], r, offline, charge, now)
    ensures CameBack(c, r, e, policies, saved, offline, charge, now, x)
  {
    hide Sane, Offline, Replayable, Revived, Overlap, SecondsLeft, Remaining;
    var policy := policies.For(e.key);
    var latest: nat :| Sane(e, policy, latest);
    LeftIsRemaining(e, policy, latest, saved, offline);
    if !policy.bypass {
      SavedComesBack(e, policy, latest, saved, offline);
    }
  }

  /** The entries that the records were saved from. */
  lemma Origins(c: Cache, policies: Policies, order: seq<Use>, cut: nat, now: nat, size: Saved -> nat, maxBytes: nat,
                n: nat)
    returns (origins: seq<Entry>, homes: seq<nat>)
    requires c.Valid() && (forall j :: 0 <= j < |c.shards| ==> c.shards[j].policy == policies)
    requires multiset(order) == Gathered(c.shards, |c.shards|) && cut <= |order|
    requires n <= |SaveFirst(order, cut, now, size, maxBytes)|
    ensures |origins| == |homes| == n
    ensures forall k :: 0 <= k < n ==>
      SavedFrom(SaveFirst(order, cut, now, size, maxBytes)[k], origins[k], policies, now)
    ensures forall k :: 0 <= k < n ==> homes[k] < |c.shards| && origins[k] in c.shards[homes[k]].past.resident
  {
    hide Cache.Valid, Gathered, SaveFirst, SavedFrom;
    if n == 0 {
      origins, homes := [], [];
    } else {
      origins, homes := Origins(c, policies, order, cut, now, size, maxBytes, n - 1);
      var e, j := SavedEntry(c, policies, order, cut, now, size, maxBytes, n - 1);
      origins, homes := origins + [e], homes + [j];
    }
  }

  /** A cache saved and restored into another one under the same policies, in which
      nothing is past its retention: every record is an answer of the first cache,
      and each came back for exactly the seconds it had left or is accounted for. */
  method SaveAndRestore(c: Cache, again: Cache, policies: Policies, saved: nat, cut: nat, size: Saved -> nat,
                        maxBytes: nat,
                        charge: Saved -> nat, offline: nat, now: nat)
    returns (records: seq<Saved>, admitted: seq<Option<Entry>>, ghost origins: seq<Entry>, ghost homes: seq<nat>)
    requires c.Valid() && again.Valid()
    requires forall j :: 0 <= j < |c.shards| ==> c.shards[j].policy == policies
    requires forall j :: 0 <= j < |again.shards| ==>
      again.shards[j].policy == policies && again.shards[j].past.latest <= now
    requires AllCalm(PastsOf(again.shards), now)
    modifies again.shards
    ensures again.Valid() && |again.shards| > 0
    ensures |admitted| == |origins| == |homes| == |records|
    ensures forall k :: 0 <= k < |records| ==>
      homes[k] < |c.shards| && origins[k] in old(c.shards[homes[k]].past.resident) && origins[k].failure.None?
    ensures forall k :: 0 <= k < |records| ==>
      CameBack(again, records[k], origins[k], policies, saved, offline, charge(records[k]), now, admitted[k])
  {
    hide Shard.Valid, Dealt, Gathered, SaveFirst, CameBack, Save, Sane, Landed, Lacks, Loaded, Undone, AllCalm,
      Falling, Shard.View, Epoch;
    var order;
    records, order := Write(c, saved, cut, size, maxBytes);
    origins, homes := Origins(c, policies, order, Min(cut, |order|), saved, size, maxBytes, |records|);
    var charges := seq(|records|, i requires 0 <= i < |records| => charge(records[i]));
    var ok, floors;
    ok, admitted, floors := RestoreSnapshot(again, records, charges, offline, now, |records|, None);
    forall k | 0 <= k < |records|
      ensures CameBack(again, records[k], origins[k], policies, saved, offline, charge(records[k]), now, admitted[k])
    {
      OneCameBack(again, records[k], origins[k], policies, saved, offline, charges[k], now, admitted[k],
                  |records| - k, floors);
    }
  }
}
