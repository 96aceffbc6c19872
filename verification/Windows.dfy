/** For how long what was stored answers. */
module Windows {
  import opened Wrappers
  import opened Networks
  import opened Scopes
  import opened CacheTypes
  import opened Responses
  import opened Knowledge
  import opened ShardState
  import opened Sharing
  import opened Shards
  import opened Caches

  /** After an answer, lookups of its namespace find that answer or nothing. */
  lemma OnlyTheAnswer(p: Past, p': Past, at: nat, d: Decision, e: Entry, outgoing: Option<ClientSubnet>, now: nat,
                      allowStale: bool, hit: Option<Entry>)
    requires Answering(p, p', e.key, e.scope, at, d, Some(e)) && e.failure.None? && e.inserted == at <= now
    requires Looked(p', e.key, outgoing, now, allowStale, hit) && e.scope.Matches(outgoing) && e.lifetime <= e.retention
    ensures hit == if now - at < (if allowStale then e.retention else e.lifetime) then Some(e) else None
  {
    hide Overlap;
    if hit.Some? && hit.value != e {
      MatchingScopesOverlap(hit.value.scope, e.scope, outgoing);
    }
  }

  /** After a failure, lookups of its namespace that are not for a stale fallback
      find that failure or nothing. */
  lemma OnlyTheFailure(p: Past, p': Past, d: Decision, f: Entry, outgoing: Option<ClientSubnet>, now: nat,
                       hit: Option<Entry>)
    requires Failing(p, p', f, d) && d.Stored() && f.failure.Some? && f.inserted <= now
    requires !FreshAnswer(p.resident, f.key, f.scope, f.inserted)
    requires Looked(p', f.key, outgoing, now, false, hit) && f.scope.Matches(outgoing) && f.lifetime == f.retention
    ensures hit == if now - f.inserted < f.lifetime then Some(f) else None
  {
    hide Overlap;
    if hit.Some? && hit.value != f {
      MatchingScopesOverlap(hit.value.scope, f.scope, outgoing);
    }
  }

  lemma NeverStaleFailure(p: Past, key: Key, outgoing: Option<ClientSubnet>, now: nat, hit: Option<Entry>)
    requires Looked(p, key, outgoing, now, true, hit)
    ensures hit.Some? ==> hit.value.failure.None?
  {
  }

  /** An answer that was stored is found in its namespace for exactly its lifetime;
      by a stale fallback, if it is positive and the policy allows it, also for the
      stale retention after that; and then nothing is found. */
  method StoreThenLook(c: Cache, key: Key, response: Message, scope: Scope, charge: nat,
                       fingerprint: Option<Fingerprint>, at: nat, work: nat, refresh: bool,
                       outgoing: Option<ClientSubnet>, now: nat, allowStale: bool, observe: bool)
    returns (d: Decision, stored: Scope, hit: Option<Entry>)
    requires c.Valid() && c.shards[c.Route(key)].past.latest <= at <= now && !scope.Learned?
    modifies c.shards, Tables(c.shards)
    ensures c.Valid()
    ensures d.Stored() && stored.Matches(outgoing) ==>
      var s := c.shards[c.Route(key)];
      var policy := s.policy.For(key);
      var prepared := Prepare(key.name, key.kind, response, policy);
      && prepared.Ok?
      && var p := prepared.value;
         var stale := if allowStale && policy.stale && !p.negative then s.staleRetention else 0;
         if now - at < p.lifetime * SECOND + stale then
           && hit.Some? && hit.value.failure.None? && hit.value.key == key && hit.value.scope == stored
           && hit.value.wire == p.stored && hit.value.negative == p.negative && hit.value.inserted == at
           && hit.value.lifetime == p.lifetime * SECOND && hit.value.charge == charge
         else hit.None?
  {
    hide Shard.Valid, Dealt, Answering, Explained, Justified, NoLearned, Prepare, Epoch, Shard.View, Observed, Born,
      NextCooling, Noted, Used, Supersedes, Cache.Route, Frugal, Spare, Looked, Scope.Matches;
    var revoked;
    d, stored, revoked := c.Admit(key, response, scope, charge, fingerprint, at, work, refresh);
    ghost var after := c.shards[c.Route(key)].past;
    hit := c.Lookup(key, outgoing, now, allowStale, observe);
    if d.Stored() && stored.Matches(outgoing) {
      var s := c.shards[c.Route(key)];
      ghost var prepared := Prepare(key.name, key.kind, response, s.policy.For(key));
      OnlyTheAnswer(old(s.past), after, at, d, s.Kept(old(s.clock) + 1, key, prepared, stored, at, charge, d).value,
                    outgoing, now, allowStale, hit);
    }
  }

  /** A failure that was stored is found in its namespace for exactly its lifetime,
      the smaller of `ttl` and the negative cap, and never by a stale fallback. */
  method FailThenLook(c: Cache, key: Key, response: Message, wire: Message, scope: Scope, charge: nat, ttl: nat,
                      failure: Failure, at: nat, work: nat, outgoing: Option<ClientSubnet>, now: nat,
                      allowStale: bool, observe: bool)
    returns (d: Decision, hit: Option<Entry>)
    requires c.Valid() && c.shards[c.Route(key)].past.latest <= at <= now && !scope.Learned?
    modifies c.shards
    ensures c.Valid()
    ensures allowStale && hit.Some? ==> hit.value.failure.None?
    ensures d.Stored() && !allowStale && scope.Matches(outgoing) ==>
      var policy := c.shards[c.Route(key)].policy.For(key);
      if now - at < ttl * SECOND && now - at < policy.negativeCap * SECOND then
        && hit.Some? && hit.value.failure == Some(failure) && hit.value.key == key && hit.value.scope == scope
        && hit.value.wire == wire && hit.value.inserted == at && hit.value.charge == charge
      else hit.None?
  {
    hide Shard.Valid, Dealt, Failing, FreshAnswer, Epoch, Shard.View, Used, IsFailure, Cache.Route, Frugal,
      SpareFailing, Looked, Scope.Matches, Retained;
    d := c.AdmitFailure(key, response, wire, scope, charge, ttl, failure, at, work);
    ghost var after := c.shards[c.Route(key)].past;
    hit := c.Lookup(key, outgoing, now, allowStale, observe);
    var s := c.shards[c.Route(key)];
    if allowStale {
      if !s.policy.For(key).bypass {
        NeverStaleFailure(after, key, outgoing, now, hit);
      }
    } else if d.Stored() && scope.Matches(outgoing) {
      ghost var lifetime := Min(ttl, s.policy.For(key).negativeCap);
      OnlyTheFailure(old(s.past), after, d,
                     FailureEntry(old(s.clock) + 1, key, wire, scope, at, lifetime, failure, charge), outgoing, now,
                     hit);
    }
  }
}
