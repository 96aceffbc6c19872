/** The whole cache: its shards and the invalidation epoch. */
module Caches {
  import opened Wrappers
  import opened Sequences
  import opened Networks
  import opened Scopes
  import opened CacheTypes
  import opened Responses
  import opened Knowledge
  import opened Snapshot
  import opened ShardState
  import opened Sharing
  import opened Shards
  import opened Budgets

  /** A shard whose history holds every invalidation so far. */
  ghost predicate Joined(s: Shard, epoch: nat)
    reads s, s.sharing
  {
    s.Valid() && Epoch(s.past.log) == epoch && |s.sharing.invalidations| == epoch
  }

  /** Shards share nothing. */
  ghost predicate Separate(shards: seq<Shard>) {
    forall i, j :: 0 <= i < j < |shards| ==> shards[i] != shards[j] && shards[i].sharing != shards[j].sharing
  }

  /** Every shard has its portion of the budgets. */
  ghost predicate Dealt(limits: Limits, shards: seq<Shard>) {
    && ValidLimits(limits)
    && |shards| == ShardCount(limits)
    && forall i :: 0 <= i < |shards| ==> shards[i].budgets == ShardBudgets(limits, i)
  }

  lemma TwoBudgets(limits: Limits, i: nat)
    requires ValidLimits(limits)
    ensures |ShardBudgets(limits, i)| == 2
  {
  }

  ghost function Tables(shards: seq<Shard>): set<Table> {
    set s | s in shards :: s.sharing
  }

  class Cache {
    const limits: Limits
    const shards: seq<Shard>
    /** The hash is drawn once, when the cache is made. */
    const hash: Key -> nat
    var epoch: nat

    ghost predicate Valid()
      reads this, shards, Tables(shards)
    {
      && shards != []
      && Dealt(limits, shards)
      && Separate(shards)
      && forall i :: 0 <= i < |shards| ==> Joined(shards[i], epoch)
    }

    constructor (limits: Limits, maxVariants: nat, staleRetention: nat, learning: bool, policy: Policies,
                 sharingConfig: SharingConfig, hash: Key -> nat)
      requires ValidLimits(limits) && 1 <= maxVariants && ValidSharing(sharingConfig)
      ensures Valid() && epoch == 0 && this.limits == limits
      ensures forall i :: 0 <= i < |shards| ==> fresh(shards[i]) && fresh(shards[i].sharing)
      ensures forall i :: 0 <= i < |shards| ==> shards[i].past == Past(0, {}, 0, true, {}, [], map[])
      ensures forall i :: 0 <= i < |shards| ==> shards[i].policy == policy && shards[i].learning == learning
      ensures forall i :: 0 <= i < |shards| ==>
        shards[i].maxVariants == maxVariants && shards[i].staleRetention == staleRetention
      ensures forall i :: 0 <= i < |shards| ==>
        && shards[i].sharing.config == sharingConfig
        && shards[i].sharing.capacity == Max(1, TableCapacity(limits.maxEntries, |shards|))
    {
      hide Shard.Valid, Shard.View, ShardBudgets, Portion, TableCapacity, ValidLimits;
      var made: seq<Shard> := [];
      for i := 0 to ShardCount(limits)
        invariant |made| == i
        invariant forall j :: 0 <= j < i ==> fresh(made[j]) && fresh(made[j].sharing) && Joined(made[j], 0)
        invariant forall j :: 0 <= j < i ==> made[j].past == Past(0, {}, 0, true, {}, [], map[])
        invariant forall j :: 0 <= j < i ==> made[j].budgets == ShardBudgets(limits, j)
        invariant forall j :: 0 <= j < i ==> made[j].policy == policy && made[j].learning == learning
        invariant forall j :: 0 <= j < i ==>
          && made[j].maxVariants == maxVariants && made[j].staleRetention == staleRetention
          && made[j].sharing.config == sharingConfig
          && made[j].sharing.capacity == Max(1, TableCapacity(limits.maxEntries, ShardCount(limits)))
        invariant forall j, k :: 0 <= j < k < i ==> made[j] != made[k] && made[j].sharing != made[k].sharing
      {
        var budget := ShardBudgets(limits, i);
        TwoBudgets(limits, i);
        var s := new Shard(maxVariants, staleRetention, learning, policy, sharingConfig,
                           TableCapacity(limits.maxEntries, ShardCount(limits)), budget[0], budget[1]);
        made := made + [s];
      }
      this.limits := limits;
      this.hash := hash;
      shards := made;
      epoch := 0;
    }

    /** Entries and charged bytes of the first `k` shards. */
    ghost function Totals(k: nat): (t: (nat, nat))
      requires k <= |shards|
      reads shards
    {
      if k == 0 then (0, 0)
      else
        var rest, parts := Totals(k - 1), shards[k - 1].parts;
        if |parts| != 2 then rest
        else (rest.0 + |parts[0].lru| + |parts[1].lru|, rest.1 + parts[0].charged + parts[1].charged)
    }

    lemma {:induction false} TotalsWithin(k: nat)
      requires Valid() && k <= |shards|
      ensures Totals(k).0 <= EntrySum(limits, k) && Totals(k).1 <= ByteSum(limits, k)
    {
      hide ShardBudgets, ShardCount, Epoch, Shard.Valid, Separate;
      if k > 0 {
        TotalsWithin(k - 1);
        assert Joined(shards[k - 1], epoch);
        shards[k - 1].WithinBudgets();
      }
    }

    /** The whole cache never holds more entries, nor charges more bytes, than
        configured, and bytes that readers still hold count. */
    lemma WithinConfiguredTotals()
      requires Valid()
      ensures Totals(|shards|).0 <= limits.maxEntries
      ensures Totals(|shards|).1 <= limits.maxBytes
    {
      hide Shard.Valid, ShardBudgets;
      TotalsWithin(|shards|);
      ShardsShareTheWhole(limits);
    }

    function Route(key: Key): (i: nat)
      requires shards != []
      ensures i < |shards|
    {
      hash(key) % |shards|
    }

    /** One answer, from the response to the decision.  Whether it can be kept
        or not, a complete successful answer supersedes older knowledge. */
    method Admit(key: Key, response: Message, scope: Scope, charge: nat, fingerprint: Option<Fingerprint>,
                 now: nat, work: nat, refresh: bool)
      returns (d: Decision, stored: Scope, revoked: bool)
      requires Valid() && shards[Route(key)].past.latest <= now && !scope.Learned?
      modifies shards, Tables(shards)
      ensures Valid()
      ensures forall j :: 0 <= j < |shards| && j != Route(key) ==> unchanged(shards[j], shards[j].sharing)
      ensures var s := shards[Route(key)];
        var policy := s.policy.For(key);
        var prepared := Prepare(key.name, key.kind, response, policy);
        && (policy.bypass || !Supersedes(response) || work != epoch ==>
              !d.Stored() && !d.superseded && !revoked && s.past == old(s.past) && unchanged(s.sharing))
        && (!policy.bypass && Supersedes(response) && work == epoch ==>
              && Answering(old(s.past), s.past, key, stored, now, d,
                           s.Kept(old(s.clock) + 1, key, prepared, stored, now, charge, d))
              && (prepared.Err? ==> d.reason == Some(prepared.reason))
              && s.past == old(s.past).(
                   latest := now,
                   resident := s.past.resident,
                   refreshAdmitted := old(s.past.refreshAdmitted) + One(refresh && d.Stored()),
                   log := s.past.log,
                   cooling := NextCooling(old(s.past.cooling), s.sharing.records, ClassOf(key, scope), revoked,
                                          |s.past.log|,
                                          now + s.sharing.config.cooldown))
              && Used(old(s.View()), s.View(), d.Stored())
              && var lifetime := if prepared.Ok? then Some(prepared.value.lifetime * SECOND) else None;
              && (s.learning ==> s.sharing.history ==
                                 old(s.sharing.history) + Noted(key, scope, fingerprint, lifetime, now))
              && (s.learning ==> Observed(s.sharing.config, old(s.sharing.records), s.sharing.records, key, scope,
                                          fingerprint, lifetime, now, stored, revoked))
              && (!s.learning ==> unchanged(s.sharing))
              && Born(old(s.sharing.born), old(s.sharing.records), s.sharing.born, s.sharing.records, work)
              && (stored != scope ==>
                    && stored.Learned?
                    && Justified(s.sharing.config, s.sharing.history, s.sharing.records, key, stored, fingerprint, now))
              && Explained(old(s.past.resident), s.past.resident, key, stored, now, prepared)
              && (prepared.Ok? ==>
                    Frugal(old(s.View()).(latest := now), s.View(), Spare(old(s.past.resident), key, stored, now),
                           s.maxVariants, s.policy, key, prepared.value.negative, charge, d.reason))
              && (revoked ==> NoLearned(s.past.resident, key, scope)))
      ensures stored == scope || (scope.ExactSource? && stored == Learned(IsIpv4(scope.net.addr)))
    {
      hide Shard.Valid, Dealt, Preparable, Answering, Explained, Justified, NoLearned, Prepare, Epoch, Shard.Kept,
        Shard.View, Observed, Born, NextCooling, Noted, Used, Frugal, Spare;
      var s := shards[Route(key)];
      assert Joined(s, epoch);
      var policy := s.policy.For(key);
      if policy.bypass {
        return Decision(false, Some(PolicyDisabled)), scope, false;
      }
      if response.edns == Foreign {
        return Decision(false, Some(UnsupportedEdns)), scope, false;
      }
      if response.truncated || response.signed || (response.code != NoError && response.code != NXDomain) {
        return Decision(false, Some(UncacheableResponse)), scope, false;
      }
      var prepared := PrepareResponse(key.name, key.kind, response, policy);
      PreparedAgain(key, response, s.policy);
      d, stored, revoked := s.Admit(key, prepared, scope, charge, fingerprint, now, work, epoch, refresh);
    }

    /** One upstream SERVFAIL, kept for at most `ttl` seconds. */
    method AdmitFailure(key: Key, response: Message, wire: Message, scope: Scope, charge: nat, ttl: nat,
                        failure: Failure,
                        now: nat, work: nat)
      returns (d: Decision)
      requires Valid() && shards[Route(key)].past.latest <= now && !scope.Learned?
      modifies shards
      ensures Valid()
      ensures forall j :: 0 <= j < |shards| && j != Route(key) ==> unchanged(shards[j])
      ensures var s := shards[Route(key)];
        var policy := s.policy.For(key);
        var lifetime := Min(ttl, policy.negativeCap);
        var f := FailureEntry(old(s.clock) + 1, key, wire, scope, now, lifetime, failure, charge);
        && (policy.bypass || !IsFailure(response) || lifetime == 0 || work != epoch ==>
              !d.Stored() && s.past == old(s.past))
        && (!policy.bypass && IsFailure(response) && lifetime > 0 && work == epoch ==>
              && s.past == old(s.past).(latest := now, resident := s.past.resident, log := s.past.log)
              && Used(old(s.View()), s.View(), d.Stored())
              && Failing(old(s.past), s.past, f, d)
              && (FreshAnswer(old(s.past.resident), key, scope, now) ==>
                    && !d.Stored() && !d.superseded
                    && forall e :: e in s.past.resident <==>
                         e in old(s.past.resident) && !(e.key == key && !Retained(e, now)))
              && (!FreshAnswer(old(s.past.resident), key, scope, now) ==>
                    Frugal(old(s.View()).(latest := now), s.View(),
                           SpareFailing(old(s.past.resident), key, scope, now), s.maxVariants, s.policy, key, true,
                           charge, d.reason)))
    {
      hide Shard.Valid, Dealt, Failing, FreshAnswer, Epoch, Shard.View, Used, Frugal, SpareFailing, Retained;
      var s := shards[Route(key)];
      assert Joined(s, epoch);
      var policy := s.policy.For(key);
      if policy.bypass {
        return Decision(false, Some(PolicyDisabled));
      }
      var lifetime := Min(ttl, policy.negativeCap);
      if response.code != ServFail || response.truncated || response.signed ||
         response.edns == Foreign || lifetime == 0 {
        return Decision(false, Some(UncacheableResponse));
      }
      d := s.AdmitFailure(key, wire, scope, charge, lifetime, failure, now, work, epoch);
    }

    /** A client request, or a race check when it is not observed. */
    method Lookup(key: Key, outgoing: Option<ClientSubnet>, now: nat, allowStale: bool,
                  observe: bool) returns (hit: Option<Entry>)
      requires Valid() && shards[Route(key)].past.latest <= now
      modifies shards
      ensures Valid()
      ensures forall j :: 0 <= j < |shards| && j != Route(key) ==> unchanged(shards[j])
      ensures var s := shards[Route(key)];
        if s.policy.For(key).bypass then hit.None? && s.past == old(s.past)
        else
          && Looked(old(s.past), key, outgoing, now, allowStale, hit)
          && s.past == old(s.past).(latest := now, resident := s.past.resident)
          && s.past.resident <= old(s.past.resident)
    {
      hide Shard.Valid, Dealt, Looked, Epoch, Shard.View, Touched, Handed, Retained;
      var s := shards[Route(key)];
      assert Joined(s, epoch);
      if s.policy.For(key).bypass {
        return None;
      }
      hit := s.Lookup(key, outgoing, now, allowStale, observe);
    }

    /** A reader of shard `j` drops its handle. */
    method Release(j: nat, e: Entry)
      requires Valid() && j < |shards| && e in shards[j].uses.readers
      modifies shards
      ensures Valid()
      ensures |shards[j].parts| == 2 && shards[j].View() == Released(old(shards[j].View()), e)
      ensures shards[j].past == old(shards[j].past)
      ensures forall i :: 0 <= i < |shards| && i != j ==> unchanged(shards[i])
    {
      hide Shard.Valid, Dealt, Epoch, Released;
      assert Joined(shards[j], epoch);
      shards[j].Release(e);
    }

    /** One step over the whole cache: no shard is let go before all are cleared. */
    method Invalidate(filter: Filter) returns (removed: nat)
      requires Valid()
      modifies this, shards, Tables(shards)
      ensures Valid()
      ensures epoch == old(epoch) + 1
      ensures forall j :: 0 <= j < |shards| ==> Cleared(old(shards[j].past), shards[j].past, shards[j].sharing.records,
                                                        filter)
      ensures forall j :: 0 <= j < |shards| ==>
        shards[j].sharing.records == Forget(old(shards[j].sharing.records), filter)
      ensures removed == MatchingIn(old(PastsOf(shards)), filter)
    {
      hide Shard.Valid, Dealt, Joined, Forget, Cleared, MatchingIn;
      removed := ClearAll(shards, filter, epoch);
      epoch := epoch + 1;
    }
  }

  /** Clears every shard while all of them are held. */
  method ClearAll(shards: seq<Shard>, filter: Filter, epoch: nat) returns (removed: nat)
    requires Separate(shards) && forall j :: 0 <= j < |shards| ==> Joined(shards[j], epoch)
    modifies shards, Tables(shards)
    ensures forall j :: 0 <= j < |shards| ==> Joined(shards[j], epoch + 1)
    ensures forall j :: 0 <= j < |shards| ==> Cleared(old(shards[j].past), shards[j].past, shards[j].sharing.records,
                                                      filter)
    ensures forall j :: 0 <= j < |shards| ==>
      shards[j].sharing.records == Forget(old(shards[j].sharing.records), filter)
    ensures removed == MatchingIn(old(PastsOf(shards)), filter)
  {
    hide Shard.Valid, Epoch, Matching, Joined, Forget, Cleared;
    ghost var before := PastsOf(shards);
    removed := 0;
    for i := 0 to |shards|
      invariant removed == MatchingIn(before[..i], filter)
      invariant forall j :: 0 <= j < i ==> Reached(shards[j], before[j], old(shards[j].sharing.records), filter,
                                                   epoch + 1)
      invariant forall j :: i <= j < |shards| ==> Waiting(shards[j], before[j], old(shards[j].sharing.records), epoch)
    {
      assert before[..i + 1][..i] == before[..i];
      var r := Clear(shards[i], filter, epoch);
      removed := removed + r;
    }
    assert before[..|shards|] == before;
  }

  /** A shard that an invalidation has passed. */
  ghost predicate Reached(s: Shard, p: Past, records: map<Class, Phase>, filter: Filter, epoch: nat)
    reads s, s.sharing
  {
    Joined(s, epoch) && Cleared(p, s.past, s.sharing.records, filter) && s.sharing.records == Forget(records, filter)
  }

  /** A shard that it has yet to reach. */
  ghost predicate Waiting(s: Shard, p: Past, records: map<Class, Phase>, epoch: nat)
    reads s, s.sharing
  {
    Joined(s, epoch) && s.past == p && s.sharing.records == records
  }

  ghost function PastsOf(shards: seq<Shard>): (p: seq<Past>)
    reads shards
    ensures |p| == |shards| && forall j :: 0 <= j < |shards| ==> p[j] == shards[j].past
  {
    seq(|shards|, j requires 0 <= j < |shards| reads shards => shards[j].past)
  }

  /** The entries that a filter names. */
  ghost function Matching(resident: set<Entry>, filter: Filter): set<Entry> {
    set e | e in resident && filter.NamesEntry(e.key, e.scope)
  }

  ghost function MatchingIn(pasts: seq<Past>, filter: Filter): nat {
    if pasts == [] then 0
    else
      var n := |pasts| - 1;
      MatchingIn(pasts[..n], filter) + |Matching(pasts[n].resident, filter)|
  }

  /** One shard's part of an invalidation. */
  method Clear(s: Shard, filter: Filter, epoch: nat) returns (removed: nat)
    requires Joined(s, epoch)
    modifies s, s.sharing
    ensures Joined(s, epoch + 1)
    ensures Cleared(old(s.past), s.past, s.sharing.records, filter)
    ensures s.sharing.records == Forget(old(s.sharing.records), filter)
    ensures removed == |Matching(old(s.past.resident), filter)|
  {
    hide Shard.Valid, Epoch, Forget;
    EpochSame(s.past.log, Invalidated(filter));
    removed := s.Invalidate(filter);
    assert Matching(old(s.past.resident), filter) == Chosen(old(s.past.resident),
                                                            (e: Entry) => filter.NamesEntry(e.key, e.scope));
  }

  predicate IsFailure(response: Message) {
    response.code == ServFail && !response.truncated && !response.signed && response.edns != Foreign
  }

  /** An invalidation reached a shard. */
  ghost predicate Cleared(p: Past, p': Past, records: map<Class, Phase>, filter: Filter) {
    && p' == p.(
         resident := p'.resident,
         log := p.log + [Invalidated(filter)],
         cooling := NextCooling(p.cooling, records, None, false, 0, 0))
    && forall e :: e in p'.resident <==> e in p.resident && !filter.NamesEntry(e.key, e.scope)
  }

  /** An invalidation reaches what was learned of a key for a family: it names the
      key, and no namespace, that very one, or a network of the family with a
      prefix of at least one bit. */
  ghost predicate ReachesLearned(filter: Filter, key: Key, ipv4: bool) {
    && (filter.name == None || filter.name == Some(key.name))
    && (filter.kind == None || filter.kind == Some(key.kind))
    && match filter.scope
       case None => true
       case Some(NoEcs) => false
       case Some(Privacy(_)) => false
       case Some(Learned(v4)) => v4 == ipv4
       case Some(ExactSource(net)) => 1 <= net.prefix && (|net.addr| == 32 <==> ipv4)
       case Some(Network(net)) => 1 <= net.prefix && (|net.addr| == 32 <==> ipv4)
  }

  /** An invalidation takes learned entries and the records they stand on together,
      and exactly those it reaches.  Of the others it takes exactly those of the
      key and namespace that it names. */
  lemma LearnedGoesTogether(p: Past, p': Past, records: map<Class, Phase>, filter: Filter, key: Key, ipv4: bool)
    requires Cleared(p, p', Forget(records, filter), filter)
    ensures ReachesLearned(filter, key, ipv4) ==>
      && Class(key, ipv4) !in Forget(records, filter)
      && forall e :: e in p'.resident && e.key == key ==> e.scope != Learned(ipv4)
    ensures !ReachesLearned(filter, key, ipv4) ==>
      && (Class(key, ipv4) in records ==> Class(key, ipv4) in Forget(records, filter))
      && forall e :: e in p.resident && e.key == key && e.scope == Learned(ipv4) ==> e in p'.resident
    ensures forall e :: e in p.resident && !e.scope.Learned? ==>
      (e !in p'.resident <==>
        && (filter.name == None || filter.name == Some(e.key.name))
        && (filter.kind == None || filter.kind == Some(e.key.kind))
        && (filter.scope == None || filter.scope == Some(e.scope)))
  {
    hide NextCooling;
    NamedTogether(filter, key, ipv4);
  }

  lemma NamedTogether(filter: Filter, key: Key, ipv4: bool)
    ensures ReachesLearned(filter, key, ipv4) <==> filter.NamesClass(key, ipv4)
    ensures ReachesLearned(filter, key, ipv4) <==> filter.NamesEntry(key, Learned(ipv4))
  {
  }

  lemma PreparedAgain(key: Key, response: Message, policy: Policies)
    requires Supersedes(response)
    ensures Preparable(key, Prepare(key.name, key.kind, response, policy.For(key)), policy)
  {
    hide Prepare, Replayable, IsNegative;
    if Prepare(key.name, key.kind, response, policy.For(key)).Ok? {
      PreparedIsReplayable(key.name, key.kind, policy.For(key), response);
    }
  }
}
