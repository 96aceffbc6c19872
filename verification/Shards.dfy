/** One lock's worth of the cache. Every method is one locked region, or a part
    of one. */
module Shards {
  import opened Wrappers
  import opened Sequences
  import opened Networks
  import opened Scopes
  import opened CacheTypes
  import opened Responses
  import opened Knowledge
  import opened Snapshot
  import opened ShardState
  import opened Sharing

  /** What entries share between the two indexes and with readers: the last use
      of every entry by id, the entries of a refresh that no lookup has settled
      yet, and the handles held outside the lock. */
  datatype Uses = Uses(accessed: map<nat, nat>, refreshed: set<Entry>, readers: multiset<Entry>)

  /** Counters of resident entries, and of settled refreshes. */
  datatype Tally = Tally(learned: nat, failures: nat, refreshUseful: nat, refreshUnused: nat)

  /** A revocation: the steps before `since` came earlier, and it cools until
      `until`. */
  datatype Cooldown = Cooldown(since: nat, until: nat)

  /** The history of a shard: its entries and every step that mattered,
      `restored` being the entries that came from a snapshot and `cooling` the
      revocations of every class, in order, since when its record stayed in the table. */
  datatype Past = Past(
    refreshAdmitted: nat,
    resident: set<Entry>,
    latest: nat,
    recency: bool,
    restored: set<Entry>,
    log: seq<Event>,
    cooling: map<Class, seq<Cooldown>>)

  class Shard {
    const maxVariants: nat
    const staleRetention: nat
    const learning: bool
    const policy: Policies
    const sharing: Table
    /** Entries and bytes of the positive and of the negative partition. */
    const budgets: seq<(nat, nat)>
    var buckets: map<Key, seq<Entry>>
    /** The positive and the negative partition. */
    var parts: seq<Partition>
    var clock: nat
    var uses: Uses
    var tally: Tally
    ghost var past: Past

    ghost function View(): State
      reads this
    {
      State(buckets, parts, clock, uses.accessed, uses.refreshed, uses.readers, tally.learned, tally.failures,
            tally.refreshUseful, tally.refreshUnused, past.refreshAdmitted, past.resident, past.latest, past.recency,
            budgets)
    }

    ghost predicate Repr()
      reads this
    {
      Good(View(), maxVariants, policy)
    }

    /** The shard between two locked regions. */
    ghost predicate Valid()
      reads this, sharing
    {
      && Repr()
      && sharing.Valid()
      && Partitioned(past.resident)
      && Current(past.resident, past.log)
      && RevocationHolds(sharing.records, past.resident - past.restored)
      && Annals(past, sharing.records, sharing.invalidations)
      && Windowed(past.resident, policy, staleRetention)
      && sharing.latest <= past.latest
    }

    constructor (maxVariants: nat, staleRetention: nat, learning: bool, policy: Policies,
                 sharingConfig: SharingConfig, capacity: nat, positive: (nat, nat), negative: (nat, nat))
      requires 1 <= maxVariants && ValidSharing(sharingConfig)
      ensures Valid() && fresh(sharing) && sharing.invalidations == []
      ensures past == Past(0, {}, 0, true, {}, [], map[]) && uses == Uses(map[], {}, multiset{}) && clock == 0
      ensures this.maxVariants == maxVariants && this.policy == policy && this.learning == learning
      ensures this.staleRetention == staleRetention && tally == Tally(0, 0, 0, 0)
      ensures sharing.config == sharingConfig && sharing.capacity == Max(1, capacity)
      ensures budgets == [positive, negative] && buckets == map[]
      ensures parts == [Partition([], [], 0, positive.0, positive.1), Partition([], [], 0, negative.0, negative.1)]
    {
      this.maxVariants := maxVariants;
      this.staleRetention := staleRetention;
      this.learning := learning;
      this.policy := policy;
      sharing := new Table(sharingConfig, capacity);
      budgets := [positive, negative];
      buckets := map[];
      parts := [Partition([], [], 0, positive.0, positive.1), Partition([], [], 0, negative.0, negative.1)];
      clock := 0;
      uses := Uses(map[], {}, multiset{});
      tally := Tally(0, 0, 0, 0);
      past := Past(0, {}, 0, true, {}, [], map[]);
      new;
      hide Good;
      EmptyGood(View(), maxVariants, policy);
    }

    /** Neither partition exceeds its budgets, held bytes included. */
    lemma WithinBudgets()
      requires Valid()
      ensures |parts| == 2 && |budgets| == 2
      ensures |parts[0].lru| <= budgets[0].0 && parts[0].charged <= budgets[0].1
      ensures |parts[1].lru| <= budgets[1].0 && parts[1].charged <= budgets[1].1
    {
      hide Partitioned, Current, RevocationHolds, Annals, Windowed;
      BudgetsMet(View(), maxVariants, policy);
    }

    /** Refresh conservation: every refresh that was admitted turned out useful or
        unused, once, or still waits on an entry that is there. */
    lemma RefreshesSettleOnce()
      requires Valid()
      ensures past.refreshAdmitted == tally.refreshUseful + tally.refreshUnused + |uses.refreshed|
      ensures uses.refreshed <= past.resident
    {
      hide Stocked, Filed, Numbered, Tracked, AllSane, Recent, Partitioned, Current, RevocationHolds, Annals,
        Windowed;
    }

    /** Each list falls strictly in last use, and holds every entry of its side. */
    lemma ListsFollowUse()
      requires Valid() && past.recency
      ensures |parts| == 2 && forall i :: 0 <= i < 2 ==> Ordered(parts[i].lru, uses.accessed)
      ensures forall e :: e in past.resident <==> e in parts[0].lru + parts[1].lru
    {
      hide Filed, Numbered, Tracked, AllSane, Partitioned, Current, RevocationHolds, Annals, Windowed, Settled,
        Charges;
      SideListed(parts, past.resident, uses.readers);
    }

    /** A fresh hit leaves every record at least a second: what it was stored with,
        less the whole seconds since then. */
    lemma HitsHaveTime(e: Entry, now: nat, staleTtl: nat)
      requires Valid() && e in past.resident && e.failure.None? && Fresh(e, now)
      ensures forall k :: 0 <= k < |All(e.wire)| ==>
        1 <= ReplyTtl(All(e.wire)[k].ttl, Age(e, now), false, staleTtl) == All(e.wire)[k].ttl - Age(e, now) / SECOND
    {
      hide Stocked, Filed, Numbered, Tracked, Recent, Partitioned, Current, RevocationHolds, Annals, Windowed,
        Settled, Replayable, IsNegative, All;
      assert Sane(e, policy.For(e.key), past.latest);
      FreshHitTtls(e.key.name, e.key.kind, policy.For(e.key), e.wire, e.lifetime / SECOND, Age(e, now), staleTtl);
    }

    /** In every reachable state an answer is what a lookup of its namespace finds for
        exactly its lifetime, and for a stale fallback, if it is positive and the
        policy allows it, exactly for the stale retention after that as well. */
    lemma FoundInItsWindow(e: Entry, outgoing: Option<ClientSubnet>, now: nat, allowStale: bool, hit: Option<Entry>)
      requires Valid() && e in past.resident && e.failure.None? && e.scope.Matches(outgoing) && past.latest <= now
      requires Looked(past, e.key, outgoing, now, allowStale, hit)
      ensures var stale := allowStale && policy.For(e.key).stale && !e.negative;
        && e.inserted <= now
        && (hit == Some(e) <==> now - e.inserted < e.lifetime + (if stale then staleRetention else 0))
    {
      hide Stocked, Filed, Numbered, Tracked, Recent, Partitioned, Current, RevocationHolds, Annals, Settled,
        Replayable, IsNegative, LastAnswer, LastFailure;
      assert Sane(e, policy.For(e.key), past.latest);
    }

    /** A failure is found for exactly its lifetime, and never by a stale fallback. */
    lemma FailureInItsWindow(e: Entry, outgoing: Option<ClientSubnet>, now: nat, allowStale: bool, hit: Option<Entry>)
      requires Valid() && e in past.resident && e.failure.Some? && e.scope.Matches(outgoing) && past.latest <= now
      requires Looked(past, e.key, outgoing, now, allowStale, hit)
      ensures e.inserted <= now && (hit == Some(e) <==> !allowStale && now - e.inserted < e.lifetime)
    {
      hide Stocked, Filed, Numbered, Tracked, Recent, Partitioned, Current, RevocationHolds, Annals, Settled,
        Replayable, IsNegative, LastAnswer, LastFailure, Windowed;
      assert Sane(e, policy.For(e.key), past.latest);
    }

    /** The cooldown of every revocation, over whole runs: while the record stays in
        the table, no answer places a learned entry of the class before the
        cooldown ends, and until then none is resident but what a snapshot
        brought. */
    lemma NoneBeforeCooldownEnds(c: Class, k: nat, i: nat)
      requires Valid() && c in past.cooling && k < |past.cooling[c]|
      ensures past.cooling[c][k].since <= i < |past.log| && PlacesLearned(past.log[i], c) ==>
        past.cooling[c][k].until <= past.log[i].stored.value.inserted
      ensures past.latest < past.cooling[c][k].until ==> forall e ::
        e in past.resident && e.key == c.key && e.scope == Learned(c.ipv4) ==> e in past.restored
    {
      hide Good, Partitioned, Current;
      assert Heeded(past.log, past.latest, past.cooling[c], c, sharing.records[c]);
      assert Spared(past.log, c, past.cooling[c][k]);
    }

    /** Epoch linearisation of what was learned: the work that started a record
        read its epoch after every invalidation that names the class. */
    lemma RecordsAfterInvalidation(c: Class, j: nat)
      requires Valid() && c in sharing.records
      requires j < |past.log| && past.log[j].Invalidated? && past.log[j].filter.NamesClass(c.key, c.ipv4)
      ensures c in sharing.born && Epoch(past.log[..j + 1]) <= sharing.born[c] <= Epoch(past.log)
    {
      hide Good, Partitioned, Current, RevocationHolds, Cooled;
      FilterAt(past.log, j);
      FiltersCount(past.log);
      assert past.log[..j + 1][..j] == past.log[..j];
      assert sharing.invalidations[Epoch(past.log[..j])].NamesClass(c.key, c.ipv4);
    }

    method Remove(e: Entry)
      requires Repr() && e in past.resident
      modifies this`buckets, this`parts, this`uses, this`tally, this`past
      ensures Repr()
      ensures View() == Removed(old(View()), e)
      ensures past == old(past).(resident := old(past).resident - {e})
    {
      hide Good, Unfile, Take, SameBudgets;
      RemovedGood(View(), maxVariants, policy, e);
      parts := Take(parts, e, e in uses.readers);
      buckets := Unfile(buckets, e);
      tally := Tally(tally.learned - One(e.scope.Learned?), tally.failures - One(e.failure.Some?),
                     tally.refreshUseful, tally.refreshUnused + One(e in uses.refreshed));
      uses := uses.(refreshed := uses.refreshed - {e});
      past := past.(resident := past.resident - {e});
    }

    /** Removes collected entries one after the other. */
    method RemoveAll(victims: seq<Entry>)
      requires Repr() && NoDuplicates(victims) && forall e :: e in victims ==> e in past.resident
      modifies this`buckets, this`parts, this`uses, this`tally, this`past
      ensures Repr()
      ensures Lost(old(View()), View())
      ensures past == old(past).(resident := old(past).resident - Elements(victims))
      ensures victims == [] ==> View() == old(View())
    {
      hide Good, Removed, Lost, NoDuplicates;
      LostNothing(View());
      for i := 0 to |victims|
        invariant Repr() && Lost(old(View()), View())
        invariant past == old(past).(resident := old(past).resident - Elements(victims[..i]))
        invariant i == 0 ==> View() == old(View())
      {
        DistinctAhead(victims, i);
        LostStep(old(View()), View(), maxVariants, policy, victims[i]);
        Remove(victims[i]);
      }
      assert victims[..|victims|] == victims;
    }

    /** Removes the variants of one key that `drop` selects. */
    method Sweep(key: Key, drop: Entry -> bool) returns (any: bool)
      requires Repr()
      modifies this`buckets, this`parts, this`uses, this`tally, this`past
      ensures Repr()
      ensures Lost(old(View()), View())
      ensures past == old(past).(resident := past.resident)
      ensures forall e :: e in past.resident <==> e in old(past).resident && !(e.key == key && drop(e))
      ensures any <==> exists e :: e in old(past).resident && e.key == key && drop(e)
      ensures !any ==> View() == old(View())
    {
      hide Good, Lost, NoDuplicates;
      var victims := Only(Bucket(buckets, key), drop);
      VictimsListed(View(), maxVariants, policy, key, drop);
      RemoveAll(victims);
      any := victims != [];
      assert any ==> victims[0] in victims;
    }

    /** Drops what is past its retention. */
    method Prune(key: Key, now: nat)
      requires Repr()
      modifies this`buckets, this`parts, this`uses, this`tally, this`past
      ensures Repr()
      ensures Lost(old(View()), View())
      ensures past == old(past).(resident := past.resident)
      ensures forall e :: e in past.resident <==> e in old(past).resident && !(e.key == key && !Retained(e, now))
      ensures AllRetained(old(past).resident, key, now) ==> View() == old(View())
    {
      hide Good, Lost, Retained;
      var _ := Sweep(key, (e: Entry) => !Retained(e, now));
    }

    /** Publishes one entry under the next id, at the front of its list, or at
        the end when a restore gives it a use stamp. */
    method Insert(e: Entry, stamp: Option<nat>, refresh: bool)
      requires Repr() && e.id == clock + 1 && Sane(e, policy.For(e.key), past.latest)
      requires |parts| == 2 && Fits(parts, e)
      requires |Bucket(buckets, e.key)| < maxVariants
      requires stamp.Some? ==> stamp.value <= clock
      modifies this
      ensures View() == Inserted(old(View()), e, stamp, refresh)
      ensures Repr()
      ensures SameBudgets(old(parts), parts)
      ensures past == old(past).(refreshAdmitted := past.refreshAdmitted, resident := past.resident,
                                 recency := past.recency)
    {
      hide Good, File, Put, SameBudgets, Below, FirstUse, Sane, Fits;
      InsertedGood(View(), maxVariants, policy, e, stamp, refresh);
      ghost var next := Inserted(View(), e, stamp, refresh);
      parts := Put(parts, e, stamp.Some?);
      buckets := File(buckets, e);
      clock := clock + 1;
      uses := uses.(accessed := uses.accessed[e.id := FirstUse(e, stamp)],
                    refreshed := if refresh then uses.refreshed + {e} else uses.refreshed);
      tally := tally.(learned := tally.learned + One(e.scope.Learned?),
                      failures := tally.failures + One(e.failure.Some?));
      past := past.(refreshAdmitted := next.refreshAdmitted, resident := next.resident, recency := next.recency);
    }

    /** Evicts the least recently used entries of one partition until `e` fits, and
        not one more. */
    method MakeRoom(e: Entry) returns (ok: bool)
      requires Repr() && |parts| == 2
      modifies this`buckets, this`parts, this`uses, this`tally, this`past
      ensures Repr() && |parts| == 2
      ensures Lost(old(View()), View())
      ensures past == old(past).(resident := past.resident)
      ensures forall x :: x in old(past).resident && x !in past.resident ==> x.negative == e.negative
      ensures ok <==> Fits(parts, e)
      ensures Trimmed(old(parts)[One(e.negative)], parts[One(e.negative)], uses.readers, e.charge)
      ensures old(Ample(parts[One(e.negative)], e.charge)) ==> ok && View() == old(View())
      ensures !ok ==> parts[One(e.negative)].lru == []
    {
      hide Good, Lost, Removed, Trimmed;
      var at := One(e.negative);
      LostNothing(View());
      NotTrimmed(parts[at], uses.readers, e.charge);
      while !Fits(parts, e)
        invariant Repr() && |parts| == 2 && Lost(old(View()), View())
        invariant past == old(past).(resident := past.resident)
        invariant forall x :: x in old(past).resident && x !in past.resident ==> x.negative == e.negative
        invariant Trimmed(old(parts)[at], parts[at], uses.readers, e.charge)
        invariant old(Fits(parts, e)) ==> View() == old(View())
        decreases |parts[at].lru|
      {
        if parts[at].lru == [] {
          return false;
        }
        var last := parts[at].lru[|parts[at].lru| - 1];
        LastIsResident(View(), maxVariants, policy, at);
        LostStep(old(View()), View(), maxVariants, policy, last);
        RemovedGood(View(), maxVariants, policy, last);
        LastTaken(View(), maxVariants, policy, at);
        LostMeans(old(View()), View());
        TrimmedOn(old(View()), View(), e, last);
        Remove(last);
        LostMeans(old(View()), View());
        TwoParts(View(), maxVariants, policy);
      }
      return true;
    }

    /** Frees a slot of the key's bucket, if there is none, by dropping the least
        used variant of the same partition, never one of the other. */
    method MakeVariantRoom(e: Entry) returns (ok: bool)
      requires Repr()
      modifies this`buckets, this`parts, this`uses, this`tally, this`past
      ensures Repr()
      ensures Lost(old(View()), View())
      ensures past == old(past).(resident := past.resident)
      ensures forall x :: x in old(past).resident && x !in past.resident ==> x.negative == e.negative
      ensures ok ==> |Bucket(buckets, e.key)| < maxVariants
      ensures |Bucket(old(buckets), e.key)| < maxVariants ==> ok
      ensures |Bucket(old(buckets), e.key)| < maxVariants || !ok ==> View() == old(View())
      ensures !ok ==> forall x :: x in old(past).resident && x.key == e.key ==> x.negative != e.negative
      ensures ok && |Bucket(old(buckets), e.key)| >= maxVariants ==> exists x ::
        Variant(x, e.key, e.negative) && x in old(past.resident) && past.resident == old(past.resident) - {x}
      ensures forall x, y ::
        x in old(past).resident && x !in past.resident && y in past.resident && y.key == e.key && y.negative == e.negative ==>
          UsedBefore(x, y, uses.accessed)
    {
      hide Good, Lost, Removed, NoDuplicates, LeastUsed, UsedBefore;
      LostNothing(View());
      TwoParts(View(), maxVariants, policy);
      BucketLists(View(), maxVariants, policy, e.key);
      var bucket := Bucket(buckets, e.key);
      if |bucket| < maxVariants {
        return true;
      }
      var same := Only(bucket, (x: Entry) => x.negative == e.negative);
      if same == [] {
        assert forall x :: x in bucket && x.negative == e.negative ==> x in same;
        return false;
      }
      var victim := LeastUsed(same, uses.accessed);
      assert victim in past.resident && victim.key == e.key && victim.negative == e.negative;
      AllUsed(View(), maxVariants, policy);
      LeastIsFirst(same, uses.accessed);
      assert forall y :: y in past.resident && y.key == e.key && y.negative == e.negative ==> y in same;
      LostStep(View(), View(), maxVariants, policy, victim);
      VariantsWithout(past.resident, victim);
      Remove(victim);
      assert Variant(victim, e.key, e.negative) && past.resident == old(past.resident) - {victim};
      LostMeans(old(View()), View());
      BucketLists(View(), maxVariants, policy, e.key);
      return true;
    }

    /** Makes room for a prepared entry, first in its bucket and then in its
        partition, or says why there is none. */
    method Clear(t: Entry) returns (reason: Option<Reason>, ghost freed: State)
      requires Repr()
      modifies this`buckets, this`parts, this`uses, this`tally, this`past
      ensures Repr() && |parts| == 2
      ensures Lost(old(View()), View())
      ensures past == old(past).(resident := past.resident)
      ensures forall x :: x in old(past).resident && x !in past.resident ==> x.negative == t.negative
      ensures reason.None? ==> Fits(parts, t) && |Bucket(buckets, t.key)| < maxVariants
      ensures Choosing(old(View()), View(), maxVariants, t.key, t.negative, t.charge, reason)
      ensures Freeing(old(past.resident), freed.resident, maxVariants, t.key, t.negative, reason) && |freed.parts| == 2
      ensures Trimmed(freed.parts[One(t.negative)], parts[One(t.negative)], uses.readers, t.charge)
    {
      hide Good, Lost, Fits, Trimmed, Ample, Choosing;
      TwoParts(View(), maxVariants, policy);
      LostNothing(View());
      var at := One(t.negative);
      freed := View();
      NotTrimmed(parts[at], uses.readers, t.charge);
      BucketLists(View(), maxVariants, policy, t.key);
      if t.charge > parts[at].maxBytes || parts[at].maxEntries == 0 {
        ChoseNone(View(), maxVariants, t, Capacity);
        return Some(Capacity), freed;
      }
      var ok := MakeVariantRoom(t);
      LostMeans(old(View()), View());
      TwoParts(View(), maxVariants, policy);
      if !ok {
        ChoseNone(View(), maxVariants, t, VariantLimit);
        return Some(VariantLimit), freed;
      }
      freed := View();
      label Freed:
      AmpleStill(old(View()), View(), maxVariants, policy, at, t.charge);
      ok := MakeRoom(t);
      LostMeans(freed, View());
      LostTwice(old(View()), freed, View());
      if !ok {
        FullAtLast(View(), at, t);
        Chose(old(View()), freed, View(), maxVariants, t, Some(Capacity));
        return Some(Capacity), freed;
      }
      Chose(old(View()), freed, View(), maxVariants, t, None);
      StillRoom(freed, View(), maxVariants, policy, t.key);
      return None, freed;
    }

    /** Stores an entry once there is room for it, or gives the reason why not. */
    method Place(t: Entry, stamp: Option<nat>, refresh: bool) returns (reason: Option<Reason>)
      requires Repr() && Sane(t, policy.For(t.key), past.latest)
      requires stamp.Some? ==> stamp.value <= clock
      modifies this
      ensures Repr()
      ensures Placed(old(View()), View(), t, stamp, refresh, reason.None?)
      ensures Choosing(old(View()), View(), maxVariants, t.key, t.negative, t.charge, reason)
      ensures past == old(past).(refreshAdmitted := past.refreshAdmitted, resident := past.resident,
                                 recency := past.recency)
    {
      hide Good, Lost, Sane, Inserted, Fits, Bucket, Placed, Choosing, Trimmed, Freeing;
      ghost var freed;
      reason, freed := Clear(t);
      if reason.Some? {
        PlacedNot(old(View()), View(), t, stamp, refresh);
        return;
      }
      var e := t.(id := clock + 1);
      Renamed(t, e, parts, policy.For(t.key), past.latest);
      LostMeans(old(View()), View());
      PlacedNow(old(View()), View(), maxVariants, policy, t, stamp, refresh);
      ChosenNow(old(View()), View(), maxVariants, policy, t, stamp, refresh);
      Insert(e, stamp, refresh);
    }

    /** Time passes; nothing that was stored becomes untrue. */
    ghost method Advance(now: nat)
      requires Repr() && past.latest <= now
      modifies this`past
      ensures Repr() && View() == old(View()).(latest := now)
      ensures past == old(past).(latest := now)
    {
      hide Good;
      LaterGood(View(), maxVariants, policy, now);
      past := past.(latest := now);
    }

    /** How every admission starts: time passes and the key is pruned. */
    method Begin(key: Key, now: nat)
      requires Valid() && past.latest <= now
      modifies this`buckets, this`parts, this`uses, this`tally, this`past
      ensures Valid()
      ensures past == old(past).(latest := now, resident := past.resident)
      ensures forall e :: e in past.resident <==> e in old(past.resident) && !(e.key == key && !Retained(e, now))
      ensures uses.accessed == old(uses.accessed) && uses.readers == old(uses.readers) && clock == old(clock)
      ensures Used(old(View()), View(), false) && tally.refreshUseful == old(tally.refreshUseful)
      ensures Lost(old(View()).(latest := now), View())
      ensures AllRetained(old(past.resident), key, now) ==> View() == old(View()).(latest := now)
    {
      hide Good, Lost, Partitioned, Current, RevocationHolds, Annals, Windowed, Retained, AllRetained;
      Advance(now);
      Prune(key, now);
      AnnalsOn(old(past), past, [], sharing.records, sharing.invalidations);
      LostMeans(old(View()).(latest := now), View());
      UsedNot(old(View()).(latest := now), View());
      ShrinkKeeps(old(past.resident), past.resident, past.log);
      RevocationShrinks(sharing.records, old(past.resident) - past.restored, past.resident - past.restored);
      WindowedShrinks(old(past.resident), past.resident, policy, staleRetention);
    }

    /** Which namespace an answer is stored under. */
    method Classify(key: Key, scope: Scope, fingerprint: Option<Fingerprint>, lifetime: Option<nat>, now: nat)
      returns (stored: Scope, revoked: bool)
      requires sharing.Valid() && RevocationHolds(sharing.records, past.resident - past.restored) && !scope.Learned?
      requires (lifetime.Some? ==> lifetime.value > 0) && sharing.latest <= now
      modifies sharing
      ensures sharing.Valid() && sharing.latest <= now
      ensures sharing.invalidations == old(sharing.invalidations)
      ensures sharing.history == old(sharing.history) + Noted(key, scope, fingerprint, lifetime, now)
      ensures RevocationHolds(sharing.records, Survivors(past.resident - past.restored, key, stored))
      ensures Observed(sharing.config, old(sharing.records), sharing.records, key, scope, fingerprint, lifetime, now,
                       stored, revoked)
      ensures stored != scope ==> scope.ExactSource? && stored == Learned(IsIpv4(scope.net.addr))
      ensures stored != scope ==>
        stored.Learned? && Justified(sharing.config, sharing.history, sharing.records, key, stored, fingerprint, now)
      ensures revoked ==> stored == scope && scope.HasNet()
      ensures Born(old(sharing.born), old(sharing.records), sharing.born, sharing.records, |sharing.invalidations|)
    {
      hide RevocationHolds, Promoted, Learns, Contradicts, NextPhase, Noted;
      ghost var before, placed := sharing.records, past.resident - past.restored;
      stored, revoked := sharing.Observe(key, scope, fingerprint, lifetime, now);
      ObserveKeepsRevocation(before, sharing.records, placed, key, scope, stored);
    }

    /** Removes what an answer supersedes, then stores the answer if it can. */
    method Settle(key: Key, prepared: Result<Prepared>, stored: Scope, charge: nat, now: nat, stamp: Option<nat>,
                  refresh: bool)
      returns (d: Decision)
      requires Repr() && Preparable(key, prepared, policy) && past.latest == now
      requires stamp.Some? ==> stamp.value <= clock
      modifies this
      ensures Repr()
      ensures past == old(past).(
        resident := past.resident,
        refreshAdmitted := old(past.refreshAdmitted) + One(refresh && d.Stored()),
        recency := past.recency)
      ensures stamp.None? ==> past.recency == old(past.recency) && Used(old(View()), View(), d.Stored())
      ensures Settling(old(past.resident), past.resident, key, stored,
                       Kept(old(clock) + 1, key, prepared, stored, now, charge, d))
      ensures d.superseded <==> exists e :: e in old(past.resident) && e.key == key && Overlap(e.scope, stored)
      ensures prepared.Err? ==> d.reason == Some(prepared.reason)
      ensures forall e :: e in old(past.resident) && e !in past.resident ==>
        (e.key == key && Overlap(e.scope, stored)) || (prepared.Ok? && e.negative == prepared.value.negative)
      ensures prepared.Ok? ==> Frugal(old(View()), View(), Survivors(old(past.resident), key, stored), maxVariants,
                                      policy, key, prepared.value.negative, charge, d.reason)
    {
      hide Good, Lost, Sane, Overlap, Replayable, Placed, Settling, IsNegative, Used, Choosing, Frugal;
      var superseded := Sweep(key, (e: Entry) => Overlap(e.scope, stored));
      LostMeans(old(View()), View());
      if prepared.Err? {
        UsedNot(old(View()), View());
        SettledWithout(old(past.resident), past.resident, key, stored);
        return Decision(superseded, Some(prepared.reason));
      }
      var t := NewAnswer(0, key, prepared.value, stored, now, charge);
      NewAnswerSane(0, key, prepared.value, stored, now, charge, policy.For(key), staleRetention);
      label Swept:
      var reason := Place(t, stamp, refresh);
      PlacedSettles(old(View()), old@Swept(View()), View(), maxVariants, policy, key, stored, t, stamp, refresh,
                    reason.None?);
      PlacedUses(old(View()), old@Swept(View()), View(), t, stamp, refresh, reason.None?);
      assert old@Swept(past.resident) == Survivors(old(past.resident), key, stored);
      FrugalIf(old(View()), old@Swept(View()), View(), maxVariants, policy, key, t.negative, charge, reason);
      return Decision(superseded, reason);
    }

    /** Supersession and storage of one answer whose work saw every invalidation. */
    method Supersede(key: Key, prepared: Result<Prepared>, scope: Scope, charge: nat, fingerprint: Option<Fingerprint>,
                     now: nat, refresh: bool)
      returns (d: Decision, stored: Scope, revoked: bool)
      requires Valid() && past.latest <= now
      requires Preparable(key, prepared, policy) && !scope.Learned?
      modifies this, sharing
      ensures Valid()
      ensures sharing.invalidations == old(sharing.invalidations)
      ensures past == old(past).(
        latest := now,
        resident := past.resident,
        refreshAdmitted := old(past.refreshAdmitted) + One(refresh && d.Stored()),
        log := past.log,
        cooling := NextCooling(old(past.cooling), sharing.records, ClassOf(key, scope), revoked, |past.log|,
                               now + sharing.config.cooldown))
      ensures Used(old(View()), View(), d.Stored())
      ensures learning ==>
        sharing.history == old(sharing.history) + Noted(key, scope, fingerprint, LifetimeOf(prepared), now)
      ensures learning ==> Observed(sharing.config, old(sharing.records), sharing.records, key, scope, fingerprint,
                                    LifetimeOf(prepared), now, stored, revoked)
      ensures !learning ==> unchanged(sharing)
      ensures Born(old(sharing.born), old(sharing.records), sharing.born, sharing.records, |sharing.invalidations|)
      ensures Answering(old(past), past, key, stored, now, d,
                        Kept(old(clock) + 1, key, prepared, stored, now, charge, d))
      ensures prepared.Err? ==> d.reason == Some(prepared.reason)
      ensures Explained(old(past.resident), past.resident, key, stored, now, prepared)
      ensures prepared.Ok? ==>
        Frugal(old(View()).(latest := now), View(), Spare(old(past.resident), key, stored, now), maxVariants, policy,
               key, prepared.value.negative, charge, d.reason)
      ensures revoked ==> NoLearned(past.resident, key, scope)
      ensures !learning ==> stored == scope && !revoked
      ensures stored != scope ==> scope.ExactSource? && stored == Learned(IsIpv4(scope.net.addr))
      ensures stored != scope ==>
        stored.Learned? && Justified(sharing.config, sharing.history, sharing.records, key, stored, fingerprint, now)
    {
      hide Good, Partitioned, Current, RevocationHolds, Annals, Windowed, Preparable, Promoted, Retained, Survivors,
        Answering, NoLearned, Explained, Observed, Born, NextCooling, Noted, Used, Frugal, Spare, Lost;
      NewId(View(), maxVariants, policy);
      stored, revoked := Open(key, prepared, scope, fingerprint, now);
      label Opened:
      d := Conclude(key, prepared, scope, charge, fingerprint, now, refresh, stored, revoked, old(past),
                    old(sharing.records));
      UsedTwice(old(View()), old@Opened(View()), View(), d.Stored());
      SparesSurvive(old(past.resident), old@Opened(past.resident), key, stored, now);
      if prepared.Ok? {
        FrugalSooner(old(View()).(latest := now), old@Opened(View()), View(),
                     Spare(old(past.resident), key, stored, now), maxVariants, policy, key, prepared.value.negative,
                     charge, d.reason);
      }
    }

    /** Stores an answer once its namespace is decided, and enters it in the history. */
    method Conclude(key: Key, prepared: Result<Prepared>, scope: Scope, charge: nat,
                    ghost fingerprint: Option<Fingerprint>, now: nat,
                    refresh: bool, stored: Scope, ghost revoked: bool, ghost before: Past, ghost records: map<Class, Phase>)
      returns (d: Decision)
      requires Repr() && sharing.Valid() && sharing.latest <= now && Preparable(key, prepared, policy)
      requires Windowed(past.resident, policy, staleRetention)
      requires !scope.Learned?
      requires Partitioned(before.resident) && Current(before.resident, before.log)
      requires Annals(before, records, sharing.invalidations)
      requires before.latest <= now && (forall e :: e in before.resident ==> e.id <= clock)
      requires past == before.(latest := now, resident := past.resident)
      requires forall e :: e in past.resident <==> e in before.resident && !(e.key == key && !Retained(e, now))
      requires RevocationHolds(sharing.records, Survivors(past.resident - past.restored, key, stored))
      requires learning ==> Observed(sharing.config, records, sharing.records, key, scope, fingerprint,
                                     LifetimeOf(prepared), now,
                                     stored, revoked)
      requires !learning ==> stored == scope && !revoked && sharing.records == records
      requires revoked ==> stored == scope && scope.HasNet()
      requires stored.Learned? ==>
        Class(key, stored.ipv4) in sharing.records && sharing.records[Class(key, stored.ipv4)].Shared?
      modifies this
      ensures Valid()
      ensures past == before.(
        latest := now,
        resident := past.resident,
        refreshAdmitted := before.refreshAdmitted + One(refresh && d.Stored()),
        log := past.log,
        cooling := NextCooling(before.cooling, sharing.records, ClassOf(key, scope), revoked, |past.log|,
                               now + sharing.config.cooldown))
      ensures Used(old(View()), View(), d.Stored())
      ensures Answering(before, past, key, stored, now, d, Kept(old(clock) + 1, key, prepared, stored, now, charge, d))
      ensures prepared.Err? ==> d.reason == Some(prepared.reason)
      ensures Explained(before.resident, past.resident, key, stored, now, prepared)
      ensures prepared.Ok? ==> Frugal(old(View()), View(), Survivors(old(past.resident), key, stored), maxVariants,
                                      policy, key, prepared.value.negative, charge, d.reason)
      ensures revoked ==> NoLearned(past.resident, key, scope)
    {
      hide Frugal;
      hide Good, Lost, Partitioned, Current, RevocationHolds, Annals, Windowed, Preparable, Overlap, Promoted,
        Retained, Survivors, Settling, Answering, NoLearned, Explained, Epoch, Observed, NextCooling, Used;
      ghost var mid := past.resident;
      d := Settle(key, prepared, stored, charge, now, None, refresh);
      ghost var entry := Kept(old(clock) + 1, key, prepared, stored, now, charge, d);
      ghost var next := past.(log := past.log + [Answered(key, stored, Epoch(past.log), entry)],
                              cooling := NextCooling(past.cooling, sharing.records, ClassOf(key, scope), revoked,
                                                     |past.log| + 1,
                                                     now + sharing.config.cooldown));
      if learning {
        AnnalsAnswer(before, next, records, sharing.records, sharing.invalidations, sharing.config, key, scope,
                     fingerprint, LifetimeOf(prepared), now, stored, revoked, entry);
      } else {
        AnnalsPlain(before, next, sharing.records, sharing.invalidations, key, scope, entry,
                    now + sharing.config.cooldown);
      }
      AnswerSettles(before, next, mid, key, stored, now, d, entry);
      RevocationSettles(sharing.records, mid, past.resident, past.restored, key, stored, entry);
      RevokedGone(mid, past.resident, key, stored, entry);
      if prepared.Ok? {
        AnswerWindowed(old(clock) + 1, key, prepared.value, stored, now, charge, policy, staleRetention);
      }
      WindowedSettles(mid, past.resident, key, stored, entry, policy, staleRetention);
      LossExplained(before.resident, mid, past.resident, key, stored, now, prepared);
      ghost var settled := View();
      past := next;
      assert View() == settled;
    }

    /** Prunes the key and decides the namespace of an answer. */
    method Open(key: Key, prepared: Result<Prepared>, scope: Scope, fingerprint: Option<Fingerprint>, now: nat)
      returns (stored: Scope, revoked: bool)
      requires Valid() && past.latest <= now && Preparable(key, prepared, policy) && !scope.Learned?
      modifies this`buckets, this`parts, this`uses, this`tally, this`past, sharing
      ensures Repr() && sharing.Valid() && sharing.invalidations == old(sharing.invalidations) && sharing.latest <= now
      ensures learning ==>
        sharing.history == old(sharing.history) + Noted(key, scope, fingerprint, LifetimeOf(prepared), now)
      ensures Used(old(View()), View(), false) && clock == old(clock)
      ensures Lost(old(View()).(latest := now), View()) && Windowed(past.resident, policy, staleRetention)
      ensures past == old(past).(latest := now, resident := past.resident)
      ensures forall e :: e in past.resident <==> e in old(past.resident) && !(e.key == key && !Retained(e, now))
      ensures RevocationHolds(sharing.records, Survivors(past.resident - past.restored, key, stored))
      ensures learning ==> Observed(sharing.config, old(sharing.records), sharing.records, key, scope, fingerprint,
                                    LifetimeOf(prepared), now, stored, revoked)
      ensures !learning ==> unchanged(sharing)
      ensures Born(old(sharing.born), old(sharing.records), sharing.born, sharing.records, |sharing.invalidations|)
      ensures revoked ==> stored == scope && scope.HasNet()
      ensures !learning ==> stored == scope && !revoked
      ensures stored != scope ==> scope.ExactSource? && stored == Learned(IsIpv4(scope.net.addr))
      ensures stored != scope ==>
        stored.Learned? && Justified(sharing.config, sharing.history, sharing.records, key, stored, fingerprint, now)
    {
      hide Good, Partitioned, Current, RevocationHolds, Annals, Windowed, Preparable, Justified, Retained, Survivors,
        Observed, Noted, Lost;
      stored, revoked := scope, false;
      Begin(key, now);
      Surviving(sharing.records, past.resident - past.restored, key, scope);
      if learning {
        PreparedLifetime(key, prepared, policy);
        stored, revoked := Classify(key, scope, fingerprint, LifetimeOf(prepared), now);
      }
    }

    /** One answer under the lock.  `prepared` is what the response became before
        the lock was taken; `epoch` is what the work read when it started and
        `current` what the cache shows now. */
    method Admit(key: Key, prepared: Result<Prepared>, scope: Scope, charge: nat, fingerprint: Option<Fingerprint>,
                 now: nat, epoch: nat, current: nat, refresh: bool)
      returns (d: Decision, stored: Scope, revoked: bool)
      requires Valid() && past.latest <= now && current == Epoch(past.log)
      requires Preparable(key, prepared, policy) && !scope.Learned?
      modifies this, sharing
      ensures Valid()
      ensures sharing.invalidations == old(sharing.invalidations) && Epoch(past.log) == current
      ensures epoch != current ==>
        d == Decision(false, Some(EpochChanged)) && !revoked && past == old(past) && View() == old(View()) && unchanged(sharing)
      ensures epoch == current ==>
        && past == old(past).(
             latest := now,
             resident := past.resident,
             refreshAdmitted := old(past.refreshAdmitted) + One(refresh && d.Stored()),
             log := past.log,
             cooling := NextCooling(old(past.cooling), sharing.records, ClassOf(key, scope), revoked, |past.log|,
                                    now + sharing.config.cooldown))
        && Used(old(View()), View(), d.Stored())
        && var lifetime := if prepared.Ok? then Some(prepared.value.lifetime * SECOND) else None;
        && (learning ==> sharing.history == old(sharing.history) + Noted(key, scope, fingerprint, lifetime, now))
        && (learning ==> Observed(sharing.config, old(sharing.records), sharing.records, key, scope, fingerprint,
                                  lifetime, now, stored, revoked))
        && (!learning ==> unchanged(sharing))
        && Born(old(sharing.born), old(sharing.records), sharing.born, sharing.records, epoch)
        && Answering(old(past), past, key, stored, now, d, Kept(old(clock) + 1, key, prepared, stored, now, charge, d))
        && (prepared.Err? ==> d.reason == Some(prepared.reason))
        && Explained(old(past.resident), past.resident, key, stored, now, prepared)
        && (prepared.Ok? ==>
              Frugal(old(View()).(latest := now), View(), Spare(old(past.resident), key, stored, now), maxVariants,
                     policy, key, prepared.value.negative, charge, d.reason))
      ensures revoked ==> NoLearned(past.resident, key, scope)
      ensures !learning ==> stored == scope && !revoked
      ensures stored != scope ==> scope.ExactSource? && stored == Learned(IsIpv4(scope.net.addr))
      ensures stored != scope ==>
        stored.Learned? && Justified(sharing.config, sharing.history, sharing.records, key, stored, fingerprint, now)
    {
      hide Good, Partitioned, Current, RevocationHolds, Annals, Windowed, Preparable, Promoted, Answering, NoLearned,
        Explained, Epoch, Observed, Born, NextCooling, Noted, Used, Frugal, Spare, View;
      FiltersCounted(past, sharing.records, sharing.invalidations);
      if epoch != current {
        return Decision(false, Some(EpochChanged)), scope, false;
      }
      d, stored, revoked := Supersede(key, prepared, scope, charge, fingerprint, now, refresh);
      AnsweringEpoch(old(past), past, key, stored, now, d, Kept(old(clock) + 1, key, prepared, stored, now, charge, d));
    }

    /** An upstream failure under the lock.  It never takes the place of an
        answer: a fresh one refuses it, an older one stays for fallback. */
    method AdmitFailure(key: Key, wire: Message, scope: Scope, charge: nat, lifetime: nat, failure: Failure,
                        now: nat, epoch: nat, current: nat)
      returns (d: Decision)
      requires Valid() && past.latest <= now && current == Epoch(past.log)
      requires 0 < lifetime && !scope.Learned?
      modifies this
      ensures Valid() && Epoch(past.log) == current
      ensures epoch != current ==>
        d == Decision(false, Some(EpochChanged)) && past == old(past) && View() == old(View())
      ensures epoch == current ==>
        var f := FailureEntry(old(clock) + 1, key, wire, scope, now, lifetime, failure, charge);
        && past == old(past).(latest := now, resident := past.resident, log := past.log)
        && Used(old(View()), View(), d.Stored())
        && Failing(old(past), past, f, d)
        && (FreshAnswer(old(past.resident), key, scope, now) ==>
              && d == Decision(false, Some(UncacheableResponse))
              && forall e :: e in past.resident <==> e in old(past.resident) && !(e.key == key && !Retained(e, now)))
        && (!FreshAnswer(old(past.resident), key, scope, now) ==>
              Frugal(old(View()).(latest := now), View(), SpareFailing(old(past.resident), key, scope, now),
                     maxVariants, policy, key, true, charge, d.reason))
    {
      hide Good, Lost, Partitioned, Current, RevocationHolds, Annals, Windowed, Overlap, Retained, Failing, Fresh,
        FreshAnswer, Lively, Sane, Epoch, Used, Frugal, SpareFailing;
      if epoch != current {
        return Decision(false, Some(EpochChanged));
      }
      var f := FailureEntry(clock + 1, key, wire, scope, now, lifetime, failure, charge);
      FailureSane(f, policy.For(key), now);
      SanePlain(View(), maxVariants, policy);
      NewId(View(), maxVariants, policy);
      Begin(key, now);
      FreshSurvivesPrune(old(past.resident), past.resident, key, scope, now);
      var refused := AnyFreshAnswer(key, scope, now);
      if refused {
        FailureRefused(old(past), past, f);
        return Decision(false, Some(UncacheableResponse));
      }
      label Begun:
      d := SettleFailure(f, old(past));
      SparesFailing(old(past.resident), old@Begun(past.resident), key, scope, now);
      FrugalSooner(old(View()).(latest := now), old@Begun(View()), View(),
                   SpareFailing(old(past.resident), key, scope, now), maxVariants, policy, key, true, charge, d.reason);
      UsedTwice(old(View()), old@Begun(View()), View(), d.Stored());
      FailingEpoch(old(past), past, f, d);
      AnnalsOn(old(past), past, if d.Stored() then [Failed(f, Epoch(old(past.log)))] else [], sharing.records,
               sharing.invalidations);
      RevocationFails(sharing.records, old(past.resident), past.resident, past.restored, f);
      WindowedWith(old(past.resident), past.resident, f, policy, staleRetention);
    }

    /** Whether a fresh answer already covers part of the namespace. */
    method AnyFreshAnswer(key: Key, scope: Scope, now: nat) returns (any: bool)
      requires Repr()
      ensures any <==> FreshAnswer(past.resident, key, scope, now)
    {
      hide Good, Overlap, Fresh;
      BucketLists(View(), maxVariants, policy, key);
      any := exists e :: e in Bucket(buckets, key) && Overlap(e.scope, scope) && e.failure.None? && Fresh(e, now);
    }

    /** Replaces older failures of the namespace by `f`, if there is room. */
    method SettleFailure(f: Entry, ghost before: Past) returns (d: Decision)
      requires Repr() && f.id == clock + 1 && Sane(f, policy.For(f.key), past.latest) && f.failure.Some? && f.negative
      requires Partitioned(before.resident) && Current(before.resident, before.log) && Lively(before.resident)
      requires f !in before.resident && before.log == past.log
      requires forall e :: e in past.resident <==> e in before.resident && !(e.key == f.key && !Retained(e, f.inserted))
      requires !FreshAnswer(past.resident, f.key, f.scope, f.inserted)
      modifies this
      ensures Repr()
      ensures past == old(past).(resident := past.resident, log := past.log)
      ensures Used(old(View()), View(), d.Stored())
      ensures past.log == before.log + (if d.Stored() then [Failed(f, Epoch(before.log))] else [])
      ensures Partitioned(past.resident) && Current(past.resident, past.log)
      ensures past.resident <= before.resident + {f}
      ensures Failing(before, past, f, d)
      ensures Frugal(old(View()), View(), OutlivingFailure(old(past.resident), f.key, f.scope), maxVariants, policy,
                     f.key, true, f.charge, d.reason)
    {
      hide Good, Lost, Partitioned, Current, Overlap, Retained, Failing, Fresh, FreshAnswer, Lively, Sane, FirstUse,
        Used, Choosing, Frugal;
      ghost var pruned := past.resident;
      var superseded := Sweep(f.key, (e: Entry) => Overlap(e.scope, f.scope) && e.failure.Some?);
      LostMeans(old(View()), View());
      ghost var swept := past.resident;
      label Swept:
      var reason := Place(f, None, false);
      PlacedUses(old(View()), old@Swept(View()), View(), f, None, false, reason.None?);
      assert swept == OutlivingFailure(pruned, f.key, f.scope);
      FrugalIf(old(View()), old@Swept(View()), View(), maxVariants, policy, f.key, true, f.charge, reason);
      d := Decision(superseded, reason);
      ghost var next := past.(log := past.log + (if d.Stored() then [Failed(f, Epoch(past.log))] else []));
      FailureSettles(before, next, pruned, swept, f, d);
      ghost var settled := View();
      past := next;
      assert View() == settled;
    }

    /** A lookup under the lock.  An observed one counts as a use and settles a
        waiting refresh; a miss prunes the key.  The caller holds a handle on
        the entry afterwards. */
    method Lookup(key: Key, outgoing: Option<ClientSubnet>, now: nat, allowStale: bool,
                  observe: bool) returns (hit: Option<Entry>)
      requires Valid() && past.latest <= now
      modifies this
      ensures Valid()
      ensures past == old(past).(latest := now, resident := past.resident)
      ensures Looked(old(past), key, outgoing, now, allowStale, hit)
      ensures hit.Some? ==> past.resident == old(past.resident)
      ensures hit.Some? ==>
        View() == (if observe then Touched(old(View()).(latest := now), hit.value, Fresh(hit.value, now))
                   else Handed(old(View()).(latest := now), hit.value))
      ensures hit.None? ==> forall e :: e in past.resident <==>
        e in old(past.resident) && !(observe && e.key == key && !Retained(e, now))
      ensures hit.None? ==> Used(old(View()), View(), false)
    {
      hide Good, Partitioned, Current, RevocationHolds, Annals, Windowed, Retained, Serves, Fresh, Looked, Lost,
        Select;
      Advance(now);
      AnnalsOn(old(past), past, [], sharing.records, sharing.invalidations);
      BucketLists(View(), maxVariants, policy, key);
      hit := Select(Bucket(buckets, key), outgoing, now, allowStale);
      SelectedIsLast(View(), maxVariants, policy, past.log, key, outgoing, now, allowStale);
      LookedThrough(old(past), past, key, outgoing, now, allowStale, hit);
      if hit.None? {
        if observe {
          Prune(key, now);
          UsedNot(old(View()).(latest := now), View());
        }
        AnnalsOn(old(past), past, [], sharing.records, sharing.invalidations);
        ShrinkKeeps(old(past.resident), past.resident, past.log);
        RevocationShrinks(sharing.records, old(past.resident) - past.restored, past.resident - past.restored);
        WindowedShrinks(old(past.resident), past.resident, policy, staleRetention);
      } else if observe {
        TwoParts(View(), maxVariants, policy);
        Touch(hit.value, now);
      } else {
        HandedGood(View(), maxVariants, policy, hit.value);
        uses := uses.(readers := uses.readers + multiset{hit.value});
      }
    }

    method Touch(e: Entry, now: nat)
      requires Repr() && e in past.resident && |parts| == 2
      modifies this`parts, this`clock, this`uses, this`tally
      ensures Repr()
      ensures View() == Touched(old(View()), e, Fresh(e, now))
    {
      hide Good, Without, Fresh;
      TouchedGood(View(), maxVariants, policy, e, Fresh(e, now));
      var p := parts[One(e.negative)];
      var waiting := e in uses.refreshed;
      parts := parts[One(e.negative) := p.(lru := [e] + Without(p.lru, e))];
      clock := clock + 1;
      uses := Uses(uses.accessed[e.id := clock], uses.refreshed - {e}, uses.readers + multiset{e});
      tally := tally.(refreshUseful := tally.refreshUseful + One(waiting && Fresh(e, now)),
                      refreshUnused := tally.refreshUnused + One(waiting && !Fresh(e, now)));
    }

    /** A reader drops its handle. */
    method Release(e: Entry)
      requires Valid() && e in uses.readers
      modifies this`parts, this`uses
      ensures Valid()
      ensures |parts| == 2 && View() == Released(old(View()), e)
    {
      hide Good, Without, Partitioned, Current, RevocationHolds, Annals, Windowed;
      TwoParts(View(), maxVariants, policy);
      ReleasedGood(View(), maxVariants, policy, e);
      var left := uses.readers - multiset{e};
      var p := parts[One(e.negative)];
      if e !in left && e in p.detached && e.charge <= p.charged {
        parts := parts[One(e.negative) := p.(detached := Without(p.detached, e), charged := p.charged - e.charge)];
      }
      uses := uses.(readers := left);
    }

    /** One snapshot record.  It takes a place only where nothing resident
        overlaps it and nothing has to leave, at the end of its list.  The lists
        stay in order of use exactly if its stamp is older than every use there. */
    method Restore(key: Key, prepared: Result<Prepared>, scope: Scope, charge: nat, now: nat,
                   stamp: nat) returns (d: Decision)
      requires Valid() && past.latest <= now && Preparable(key, prepared, policy) && stamp <= clock
      modifies this
      ensures Valid() && Epoch(past.log) == Epoch(old(past.log))
      ensures past == old(past).(
        latest := now, resident := past.resident, recency := past.recency, restored := past.restored, log := past.log)
      ensures !d.superseded && (d.Stored() ==> prepared.Ok?)
      ensures prepared.Err? ==> d.reason == Some(prepared.reason)
      ensures prepared.Ok? && AllRetained(old(past.resident), key, now) ==>
        (d.Stored() <==>
         Roomy(old(View()), maxVariants, NewAnswer(old(clock) + 1, key, prepared.value, scope, now, charge)))
      ensures prepared.Ok? && !d.Stored() ==> d.reason == Some(Capacity)
      ensures AllRetained(old(past.resident), key, now) ==>
        |old(parts)| == 2 && View() == (if d.Stored()
           then Inserted(old(View()).(latest := now), NewAnswer(old(clock) + 1, key, prepared.value, scope, now, charge), Some(stamp), false)
           else old(View()).(latest := now))
      ensures Restoring(old(past), past, key, now, d.Stored(),
                        Kept(old(clock) + 1, key, prepared, scope, now, charge, d))
      ensures clock == old(clock) + One(d.Stored())
      ensures uses.accessed == if d.Stored() then old(uses.accessed)[clock := stamp] else old(uses.accessed)
      ensures uses.readers == old(uses.readers) && tally.refreshUseful == old(tally.refreshUseful)
      ensures past.recency == (old(past.recency) && (d.Stored() ==> Older(stamp, past.resident, old(uses.accessed), old(clock), prepared.value.negative)))
      ensures d.Stored() && old(past.recency) ==>
        (Recent(parts, uses.accessed) <==> Older(stamp, past.resident, old(uses.accessed), old(clock),
                                                 prepared.value.negative))
    {
      hide Good, Partitioned, Current, RevocationHolds, Annals, Windowed, Preparable, Retained, Restoring, Older,
        Sane, Epoch, Roomy, AllRetained, Inserted, Recent, Used;
      NewId(View(), maxVariants, policy);
      TwoParts(View(), maxVariants, policy);
      Begin(key, now);
      if prepared.Err? {
        RestoredNone(old(past), past, key, now);
        return Decision(false, Some(prepared.reason));
      }
      var e := NewAnswer(clock + 1, key, prepared.value, scope, now, charge);
      PreparedSane(clock + 1, key, prepared, scope, now, charge, policy, staleRetention);
      label Pruned:
      var room := PutBack(e, stamp);
      RoomyLater(old(View()), maxVariants, e, now);
      if !room {
        RestoredNone(old(past), past, key, now);
        return Decision(false, Some(Capacity));
      }
      EpochSame(old(past.log), Restored(e, Epoch(old(past.log))));
      RestoredOne(old(past), old@Pruned(past), past, key, now, e);
      return Decision(false, None);
    }

    /** Inserts a restored entry if it has room. */
    method PutBack(e: Entry, stamp: nat) returns (room: bool)
      requires Valid() && e.id == clock + 1 && Sane(e, policy.For(e.key),
                                                    past.latest) && e.failure.None? && stamp <= clock
      requires Windowed({e}, policy, staleRetention)
      modifies this
      ensures Valid() && |old(parts)| == 2
      ensures room <==> Roomy(old(View()), maxVariants, e)
      ensures !room ==> View() == old(View()) && past == old(past)
      ensures room ==> past == old(past).(
        resident := old(past.resident) + {e},
        log := old(past.log) + [Restored(e, Epoch(old(past.log)))],
        restored := old(past.restored) + {e},
        recency := old(past.recency) && Older(stamp, past.resident, old(uses.accessed), old(clock), e.negative))
      ensures room ==> View() == Inserted(old(View()), e, Some(stamp), false)
      ensures clock == old(clock) + One(room) && uses.readers == old(uses.readers)
      ensures tally.refreshUseful == old(tally.refreshUseful)
      ensures uses.accessed == if room then old(uses.accessed)[e.id := stamp] else old(uses.accessed)
      ensures room && old(past.recency) ==>
        (Recent(parts, uses.accessed) <==> Older(stamp, past.resident, old(uses.accessed), old(clock), e.negative))
    {
      hide Good, Partitioned, Current, RevocationHolds, Annals, Windowed, Overlap, Older, Fits, Bucket, Sane, Below,
        Put, File, Roomy, Recent;
      room := HasRoom(e);
      if !room {
        return;
      }
      RoomyMeans(View(), maxVariants, e);
      ghost var event := Restored(e, Epoch(past.log));
      RestoreKeeps(past.resident, past.resident + {e}, past.log, event);
      RevocationRestored(sharing.records, past.resident, past.resident + {e}, past.restored, e);
      OlderMeans(View(), maxVariants, policy, stamp, e);
      if past.recency {
        InsertedInOrderIff(View(), maxVariants, policy, e, stamp);
      }
      Insert(e, Some(stamp), false);
      WindowedWith(old(past.resident), past.resident, e, policy, staleRetention);
      past := past.(log := past.log + [event], restored := past.restored + {e});
      AnnalsOn(old(past), past, [event], sharing.records, sharing.invalidations);
    }

    /** Whether an entry fits beside everything that is there. */
    method HasRoom(e: Entry) returns (room: bool)
      requires Repr()
      ensures |parts| == 2
      ensures room <==> Roomy(View(), maxVariants, e)
    {
      hide Good, Overlap, Fits;
      TwoParts(View(), maxVariants, policy);
      BucketLists(View(), maxVariants, policy, e.key);
      room := Fits(parts, e) && |Bucket(buckets, e.key)| < maxVariants
              && forall x :: x in Bucket(buckets, e.key) ==> !Overlap(x.scope, e.scope);
    }

    /** Removes the entries of both partitions that `drop` selects. */
    method SweepAll(drop: Entry -> bool) returns (removed: nat)
      requires Repr()
      modifies this`buckets, this`parts, this`uses, this`tally, this`past
      ensures Repr()
      ensures Lost(old(View()), View())
      ensures past == old(past).(resident := past.resident)
      ensures forall e :: e in past.resident <==> e in old(past.resident) && !drop(e)
      ensures removed == |Chosen(old(past.resident), drop)|
    {
      hide Good, Lost, NoDuplicates;
      TwoParts(View(), maxVariants, policy);
      var victims := Only(parts[0].lru, drop) + Only(parts[1].lru, drop);
      BothSides(View(), maxVariants, policy, drop);
      RemoveAll(victims);
      removed := |victims|;
    }

    /** This shard's part of an invalidation. */
    method Invalidate(filter: Filter) returns (removed: nat)
      requires Valid()
      modifies this, sharing
      ensures Valid()
      ensures past == old(past).(resident := past.resident, log := old(past.log) + [Invalidated(filter)],
                                 cooling := NextCooling(old(past.cooling), sharing.records, None, false, 0, 0))
      ensures forall e :: e in past.resident <==> e in old(past.resident) && !filter.NamesEntry(e.key, e.scope)
      ensures removed == |Chosen(old(past.resident), (e: Entry) => filter.NamesEntry(e.key, e.scope))|
      ensures sharing.records == Forget(old(sharing.records), filter)
      ensures sharing.invalidations == old(sharing.invalidations) + [filter]
      ensures Used(old(View()), View(), false)
    {
      hide Good, Lost, Partitioned, Current, RevocationHolds, Annals, Windowed, Forget, Chosen, NextCooling;
      removed := SweepAll((e: Entry) => filter.NamesEntry(e.key, e.scope));
      UsedNot(old(View()), View());
      LostMeans(old(View()), View());
      InvalidateKeeps(old(past.resident), past.resident, past.log, Invalidated(filter));
      RevocationForgets(sharing.records, old(past.resident) - past.restored, past.resident - past.restored, filter);
      WindowedShrinks(old(past.resident), past.resident, policy, staleRetention);
      sharing.Invalidate(filter);
      past := past.(log := past.log + [Invalidated(filter)],
                    cooling := NextCooling(past.cooling, sharing.records, None, false, 0, 0));
      AnnalsInvalidated(old(past), past, old(sharing.records), filter, old(sharing.invalidations));
    }

    /** Removes the entries admitted after the clock showed `floor`. */
    method Unload(floor: nat)
      requires Valid()
      modifies this
      ensures Valid()
      ensures past == old(past).(resident := past.resident)
      ensures forall e :: e in past.resident <==> e in old(past.resident) && e.id <= floor
      ensures Used(old(View()), View(), false)
    {
      hide Good, Lost, Partitioned, Current, RevocationHolds, Annals, Windowed, Chosen;
      var _ := SweepAll((e: Entry) => e.id > floor);
      UsedNot(old(View()), View());
      AnnalsOn(old(past), past, [], sharing.records, sharing.invalidations);
      LostMeans(old(View()), View());
      ShrinkKeeps(old(past.resident), past.resident, past.log);
      RevocationShrinks(sharing.records, old(past.resident) - past.restored, past.resident - past.restored);
      WindowedShrinks(old(past.resident), past.resident, policy, staleRetention);
    }

    /** Lifts the clock so that later uses rank above `records` restored stamps. */
    method Lift(records: nat) returns (floor: nat)
      requires Valid()
      modifies this`clock
      ensures Valid()
      ensures clock == Max(old(clock), records) == floor
    {
      hide Good, Partitioned, Current, RevocationHolds, Annals, Windowed;
      LiftedGood(View(), maxVariants, policy, Max(clock, records));
      clock := Max(clock, records);
      floor := clock;
    }

    /** What was kept of a prepared answer. */
    function Kept(id: nat, key: Key, prepared: Result<Prepared>, scope: Scope, now: nat, charge: nat,
                  d: Decision): Option<Entry> {
      if prepared.Ok? && d.Stored() then Some(NewAnswer(id, key, prepared.value, scope, now, charge)) else None
    }

    /** The entry of a prepared answer. */
    function NewAnswer(id: nat, key: Key, p: Prepared, scope: Scope, now: nat, charge: nat): Entry {
      AnswerEntry(id, key, p, scope, now, charge, policy.For(key), staleRetention)
    }
  }

  function AnswerEntry(id: nat, key: Key, p: Prepared, scope: Scope, now: nat, charge: nat, policy: Policy,
                       staleRetention: nat): Entry {
    var lifetime := p.lifetime * SECOND;
    var retention := if policy.stale && !p.negative then lifetime + staleRetention else lifetime;
    Entry(id, key, p.stored, scope, now, lifetime, retention, p.negative, None, policy.prefetch, charge)
  }

  lemma NewAnswerSane(id: nat, key: Key, p: Prepared, scope: Scope, now: nat, charge: nat, policy: Policy,
                      staleRetention: nat)
    requires Replayable(key.name, key.kind, policy, p.stored, p.lifetime)
    requires p.negative == IsNegative(key.kind, p.stored)
    ensures Sane(AnswerEntry(id, key, p, scope, now, charge, policy, staleRetention), policy, now)
  {
    hide IsNegative;
    ReplayableBound(key.name, key.kind, policy, p.stored, p.lifetime);
    hide Replayable;
  }

  /** For how long every answer is retained: for its lifetime, and a positive one
      whose policy allows stale answers for the stale retention after that. */
  ghost predicate Windowed(entries: set<Entry>, policy: Policies, staleRetention: nat) {
    forall e :: e in entries && e.failure.None? ==>
      e.retention == e.lifetime + (if policy.For(e.key).stale && !e.negative then staleRetention else 0)
  }

  lemma WindowedShrinks(before: set<Entry>, after: set<Entry>, policy: Policies, staleRetention: nat)
    requires Windowed(before, policy, staleRetention) && after <= before
    ensures Windowed(after, policy, staleRetention)
  {
  }

  lemma WindowedWith(before: set<Entry>, after: set<Entry>, e: Entry, policy: Policies, staleRetention: nat)
    requires Windowed(before, policy, staleRetention) && after <= before + {e}
    requires e.failure.Some? || Windowed({e}, policy, staleRetention)
    ensures Windowed(after, policy, staleRetention)
  {
    assert e.failure.None? ==> e in {e};
  }

  lemma AnswerWindowed(id: nat, key: Key, p: Prepared, scope: Scope, now: nat, charge: nat, policy: Policies,
                       staleRetention: nat)
    ensures Windowed({AnswerEntry(id, key, p, scope, now, charge, policy.For(key), staleRetention)}, policy,
                     staleRetention)
  {
  }

  lemma WindowedSettles(mid: set<Entry>, after: set<Entry>, key: Key, stored: Scope, entry: Option<Entry>,
                        policy: Policies, staleRetention: nat)
    requires Windowed(mid, policy, staleRetention) && Settling(mid, after, key, stored, entry)
    requires entry.Some? ==> Windowed({entry.value}, policy, staleRetention)
    ensures Windowed(after, policy, staleRetention)
  {
    hide Overlap;
    if entry.Some? {
      assert after <= mid + {entry.value};
      WindowedWith(mid, after, entry.value, policy, staleRetention);
    } else {
      assert after <= mid;
    }
  }

  /** A prepared answer can be prepared again, whatever time has gone. */
  ghost predicate Preparable(key: Key, prepared: Result<Prepared>, policy: Policies) {
    prepared.Ok? ==>
      && Replayable(key.name, key.kind, policy.For(key), prepared.value.stored, prepared.value.lifetime)
      && prepared.value.negative == IsNegative(key.kind, prepared.value.stored)
  }

  /** What an answer for a namespace leaves of a set of entries. */
  ghost function Survivors(entries: set<Entry>, key: Key, stored: Scope): set<Entry> {
    set e | e in entries && !(e.key == key && Overlap(e.scope, stored))
  }

  ghost predicate Settling(before: set<Entry>, after: set<Entry>, key: Key, stored: Scope, entry: Option<Entry>) {
    && (entry.Some? ==> entry.value !in before && entry.value in after)
    && after <= Survivors(before, key, stored) + (if entry.Some? then {entry.value} else {})
  }

  /** One answer reached supersession: it ends every overlapping entry of its
      key, drops what was past its retention, and may be kept. */
  ghost predicate Answering(p: Past, p': Past, key: Key, stored: Scope, now: nat, d: Decision, entry: Option<Entry>) {
    && p'.log == p.log + [Answered(key, stored, Epoch(p.log), entry)]
    && (entry.Some? <==> d.Stored())
    && (entry.Some? ==> entry.value !in p.resident && entry.value in p'.resident)
    && (forall e :: e in p'.resident ==>
          entry == Some(e) || (e in p.resident && !(e.key == key && (Overlap(e.scope, stored) || !Retained(e, now)))))
    && (d.superseded <==> exists e :: e in p.resident && e.key == key && Retained(e, now) && Overlap(e.scope, stored))
  }

  /** No learned entry of the key serves the family of `scope`. */
  ghost predicate NoLearned(resident: set<Entry>, key: Key, scope: Scope) {
    scope.HasNet() && forall e :: e in resident && e.key == key ==> e.scope != Learned(IsIpv4(scope.net.addr))
  }

  lemma PreparedLifetime(key: Key, prepared: Result<Prepared>, policy: Policies)
    requires Preparable(key, prepared, policy)
    ensures prepared.Ok? ==> prepared.value.lifetime > 0
  {
  }

  lemma RevocationShrinks(records: map<Class, Phase>, before: set<Entry>, after: set<Entry>)
    requires RevocationHolds(records, before) && after <= before
    ensures RevocationHolds(records, after)
  {
  }

  lemma Surviving(records: map<Class, Phase>, placed: set<Entry>, key: Key, stored: Scope)
    requires RevocationHolds(records, placed)
    ensures RevocationHolds(records, Survivors(placed, key, stored))
  {
  }

  lemma AnswerSettles(p: Past, p': Past, mid: set<Entry>, key: Key, stored: Scope, now: nat, d: Decision,
                      entry: Option<Entry>)
    requires Partitioned(p.resident) && Current(p.resident, p.log)
    requires forall e :: e in mid <==> e in p.resident && !(e.key == key && !Retained(e, now))
    requires Settling(mid, p'.resident, key, stored, entry)
    requires p'.log == p.log + [Answered(key, stored, Epoch(p.log), entry)]
    requires entry.Some? ==>
      && entry.value !in p.resident
      && entry.value.key == key && entry.value.scope == stored && entry.value.failure.None?
    requires entry.Some? <==> d.Stored()
    requires d.superseded <==> exists e :: e in mid && e.key == key && Overlap(e.scope, stored)
    ensures Partitioned(p'.resident) && Current(p'.resident, p'.log)
    ensures Answering(p, p', key, stored, now, d, entry)
  {
    hide Partitioned, Current, Overlap, Retained;
    var ev := Answered(key, stored, Epoch(p.log), entry);
    assert forall e :: e in p'.resident ==> ev.stored == Some(e) || (e in p.resident && !Ends(ev, e));
    AnswerKeeps(p.resident, p'.resident, p.log, ev);
  }

  lemma RevocationSettles(records: map<Class, Phase>, mid: set<Entry>, after: set<Entry>, restored: set<Entry>,
                          key: Key, stored: Scope, entry: Option<Entry>)
    requires RevocationHolds(records, Survivors(mid - restored, key, stored))
    requires Settling(mid, after, key, stored, entry)
    requires entry.Some? ==> entry.value.key == key && entry.value.scope == stored
    requires stored.Learned? ==> Class(key, stored.ipv4) in records && records[Class(key, stored.ipv4)].Shared?
    ensures RevocationHolds(records, after - restored)
  {
    hide Overlap;
    assert after - restored <= Survivors(mid - restored, key, stored) + (if entry.Some? then {entry.value} else {});
  }

  lemma RevokedGone(mid: set<Entry>, after: set<Entry>, key: Key, stored: Scope, entry: Option<Entry>)
    requires Settling(mid, after, key, stored, entry)
    requires entry.Some? ==> entry.value.scope == stored
    ensures stored.HasNet() ==> NoLearned(after, key, stored)
  {
  }

  lemma SettledWithout(before: set<Entry>, after: set<Entry>, key: Key, stored: Scope)
    requires forall e :: e in after <==> e in before && !(e.key == key && Overlap(e.scope, stored))
    ensures Settling(before, after, key, stored, None)
  {
  }

  lemma PlacedSettles(s: State, m: State, s': State, maxVariants: nat, policy: Policies, key: Key, stored: Scope,
                      t: Entry, stamp: Option<nat>, refresh: bool, kept: bool)
    requires Good(s, maxVariants, policy) && m.clock == s.clock && Placed(m, s', t, stamp, refresh, kept)
    requires forall e :: e in m.resident <==> e in s.resident && !(e.key == key && Overlap(e.scope, stored))
    ensures s'.latest == m.latest && s'.refreshAdmitted == m.refreshAdmitted + One(refresh && kept)
    ensures Settling(s.resident, s'.resident, key, stored, if kept then Some(t.(id := s.clock + 1)) else None)
    ensures forall e :: e in s.resident && e !in s'.resident ==>
      (e.key == key && Overlap(e.scope, stored)) || e.negative == t.negative
  {
    hide Good, Overlap, FirstUse;
    NewId(s, maxVariants, policy);
  }

  function FailureEntry(id: nat, key: Key, wire: Message, scope: Scope, now: nat, lifetime: nat, failure: Failure,
                        charge: nat): Entry {
    Entry(id, key, wire, scope, now, lifetime * SECOND, lifetime * SECOND, true, Some(failure), false, charge)
  }

  lemma FailureSane(f: Entry, policy: Policy, now: nat)
    requires f.inserted <= now && 0 < f.lifetime == f.retention && f.failure.Some? && f.negative
    ensures Sane(f, policy, now)
  {
  }

  /** A fresh answer already covers part of the namespace. */
  ghost predicate FreshAnswer(resident: set<Entry>, key: Key, scope: Scope, now: nat) {
    exists e :: e in resident && e.key == key && Overlap(e.scope, scope) && e.failure.None? && Fresh(e, now)
  }

  /** A failure was refused, dropped, or stored beside answers past their
      lifetime.  It costs no positive answer its place, unless that was past its
      retention. */
  ghost predicate Failing(p: Past, p': Past, f: Entry, d: Decision) {
    && p'.log == p.log + (if d.Stored() then [Failed(f, Epoch(p.log))] else [])
    && (d.Stored() ==> f !in p.resident && f in p'.resident)
    && (forall e :: e in p'.resident ==> (d.Stored() && e == f) || e in p.resident)
    && (d.Stored() ==> forall e :: e in p'.resident ==> e == f || !Ends(Failed(f, Epoch(p.log)), e))
    && (forall e :: e in p.resident && e !in p'.resident ==> e.negative || (e.key == f.key && !Retained(e, f.inserted)))
  }

  /** What every resident entry has, without the details. */
  ghost predicate Lively(entries: set<Entry>) {
    forall e :: e in entries ==> 0 < e.lifetime <= e.retention && (e.failure.Some? ==> e.negative)
  }

  lemma SanePlain(s: State, maxVariants: nat, policy: Policies)
    requires Good(s, maxVariants, policy)
    ensures Lively(s.resident)
  {
    hide Stocked, Filed, Numbered, Tracked, Recent, LearnedOf, FailuresOf, Replayable, IsNegative, Settled;
    forall e | e in s.resident ensures 0 < e.lifetime <= e.retention && (e.failure.Some? ==> e.negative) {
      assert Sane(e, policy.For(e.key), s.latest);
    }
  }

  lemma FreshSurvivesPrune(before: set<Entry>, after: set<Entry>, key: Key, scope: Scope, now: nat)
    requires Lively(before)
    requires forall e :: e in after <==> e in before && !(e.key == key && !Retained(e, now))
    ensures FreshAnswer(before, key, scope, now) <==> FreshAnswer(after, key, scope, now)
  {
    hide Overlap;
    if FreshAnswer(before, key, scope, now) {
      var e :| e in before && e.key == key && Overlap(e.scope, scope) && e.failure.None? && Fresh(e, now);
      assert e in after;
    }
  }

  lemma FailureRefused(p: Past, p': Past, f: Entry)
    requires p'.log == p.log
    requires forall e :: e in p'.resident <==> e in p.resident && !(e.key == f.key && !Retained(e, f.inserted))
    ensures Failing(p, p', f, Decision(false, Some(UncacheableResponse)))
  {
    hide Retained;
  }

  lemma FailureSettles(p: Past, p': Past, pruned: set<Entry>, swept: set<Entry>, f: Entry, d: Decision)
    requires Partitioned(p.resident) && Current(p.resident, p.log) && Lively(p.resident)
    requires f.failure.Some? && f.negative && f !in p.resident
    requires forall e :: e in pruned <==> e in p.resident && !(e.key == f.key && !Retained(e, f.inserted))
    requires forall e :: e in swept <==> e in pruned && !(e.key == f.key && Overlap(e.scope, f.scope) && e.failure.Some?)
    requires !FreshAnswer(pruned, f.key, f.scope, f.inserted)
    requires p'.resident <= swept + (if d.Stored() then {f} else {}) && (d.Stored() ==> f in p'.resident)
    requires forall e :: e in swept && e !in p'.resident ==> e.negative
    requires p'.log == p.log + (if d.Stored() then [Failed(f, Epoch(p.log))] else [])
    ensures Partitioned(p'.resident) && Current(p'.resident, p'.log)
    ensures Failing(p, p', f, d)
  {
    hide Partitioned, Current, Overlap, Retained, Fresh;
    ShrinkKeeps(p.resident, pruned, p.log);
    if d.Stored() {
      FailureKeeps(pruned, p'.resident, p.log, Failed(f, Epoch(p.log)));
    } else {
      assert p'.log == p.log;
      ShrinkKeeps(p.resident, p'.resident, p.log);
    }
  }

  lemma RevocationFails(records: map<Class, Phase>, before: set<Entry>, after: set<Entry>, restored: set<Entry>,
                        f: Entry)
    requires RevocationHolds(records, before - restored) && !f.scope.Learned?
    requires after <= before + {f}
    ensures RevocationHolds(records, after - restored)
  {
  }

  /** The rank of a candidate: fresh before stale, then the longer prefix. */
  function Rank(e: Entry, now: nat): (nat, nat) {
    (One(Fresh(e, now)), e.scope.PrefixLen())
  }

  predicate AtLeast(a: (nat, nat), b: (nat, nat)) {
    a.0 > b.0 || (a.0 == b.0 && a.1 >= b.1)
  }

  /** The last candidate with the highest rank. */
  function Select(bucket: seq<Entry>, outgoing: Option<ClientSubnet>, now: nat, allowStale: bool): (hit: Option<Entry>)
    ensures hit.Some? ==> hit.value in bucket && Serves(hit.value, outgoing, now, allowStale)
    ensures hit.None? ==> forall e :: e in bucket ==> !Serves(e, outgoing, now, allowStale)
  {
    if bucket == [] then None
    else
      var n := |bucket| - 1;
      var best := Select(bucket[..n], outgoing, now, allowStale);
      if Serves(bucket[n], outgoing, now, allowStale) && (best.None? || AtLeast(Rank(bucket[n], now), Rank(best.value, now)))
      then Some(bucket[n]) else best
  }

  /** What a lookup may return: the only entry that can serve it, which is the
      last answer, or the last failure, that the history holds for the subnet. */
  ghost predicate Looked(p: Past, key: Key, outgoing: Option<ClientSubnet>, now: nat, allowStale: bool,
                         hit: Option<Entry>) {
    && (hit.Some? ==>
          && hit.value in p.resident && hit.value.key == key
          && Serves(hit.value, outgoing, now, allowStale)
          && (hit.value.failure.None? ==> LastAnswer(p.log, key, outgoing) == hit)
          && (hit.value.failure.Some? ==> LastFailure(p.log, key, outgoing) == hit))
    && (forall e :: e in p.resident && e.key == key && Serves(e, outgoing, now, allowStale) ==> hit == Some(e))
  }

  lemma SelectedIsLast(s: State, maxVariants: nat, policy: Policies, log: seq<Event>, key: Key,
                       outgoing: Option<ClientSubnet>, now: nat, allowStale: bool)
    requires Good(s, maxVariants, policy) && Partitioned(s.resident) && Current(s.resident, log) && s.latest <= now
    requires Lists(Bucket(s.buckets, key), Variants(s.resident, key))
    ensures var hit := Select(Bucket(s.buckets, key), outgoing, now, allowStale);
      && (hit.Some? ==>
            && hit.value in s.resident && hit.value.key == key
            && (hit.value.failure.None? ==> LastAnswer(log, key, outgoing) == hit)
            && (hit.value.failure.Some? ==> LastFailure(log, key, outgoing) == hit))
      && (forall e :: e in s.resident && e.key == key && Serves(e, outgoing, now, allowStale) ==> hit == Some(e))
  {
    hide Partitioned, NoDuplicates, LastAnswer, LastFailure, StandsSince;
    InsertedBefore(s, maxVariants, policy, now);
    hide Good;
    var hit := Select(Bucket(s.buckets, key), outgoing, now, allowStale);
    if hit.Some? {
      var e := hit.value;
      assert e in Variants(s.resident, key);
      assert Stands(log, e);
      var i: nat :| StandsSince(log, e, i);
      if e.failure.None? {
        AnswerIsLast(log, e, i, outgoing);
      } else {
        FailureIsLast(log, e, i, outgoing);
      }
    }
    forall e | e in s.resident && e.key == key && Serves(e, outgoing, now, allowStale)
      ensures hit == Some(e)
    {
      assert e in Variants(s.resident, key);
      OneCandidate(s.resident, e, hit.value, outgoing, now, allowStale);
    }
  }

  lemma InsertedBefore(s: State, maxVariants: nat, policy: Policies, now: nat)
    requires Good(s, maxVariants, policy) && s.latest <= now
    ensures forall e :: e in s.resident ==> e.inserted <= now
  {
    hide Stocked, Filed, Numbered, Tracked, Recent, LearnedOf, FailuresOf, Replayable, IsNegative, Settled;
    forall e | e in s.resident ensures e.inserted <= now {
      assert Sane(e, policy.For(e.key), s.latest);
    }
  }

  lemma LookedThrough(p: Past, p': Past, key: Key, outgoing: Option<ClientSubnet>, now: nat, allowStale: bool,
                      hit: Option<Entry>)
    requires p'.resident == p.resident && p'.log == p.log
    requires hit.Some? ==>
      && hit.value in p'.resident && hit.value.key == key && Serves(hit.value, outgoing, now, allowStale)
      && (hit.value.failure.None? ==> LastAnswer(p'.log, key, outgoing) == hit)
      && (hit.value.failure.Some? ==> LastFailure(p'.log, key, outgoing) == hit)
    requires forall e :: e in p'.resident && e.key == key && Serves(e, outgoing, now, allowStale) ==> hit == Some(e)
    ensures Looked(p, key, outgoing, now, allowStale, hit)
  {
  }

  /** No variant of the key is past its retention. */
  ghost predicate AllRetained(resident: set<Entry>, key: Key, now: nat) {
    forall e :: e in resident && e.key == key ==> Retained(e, now)
  }

  /** The entry fits beside everything that is there, and overlaps none of it. */
  ghost predicate Roomy(s: State, maxVariants: nat, e: Entry) {
    && |s.parts| == 2 && Fits(s.parts, e)
    && |Bucket(s.buckets, e.key)| < maxVariants
    && forall x :: x in s.resident && x.key == e.key ==> !Overlap(x.scope, e.scope)
  }

  lemma RoomyLater(s: State, maxVariants: nat, e: Entry, now: nat)
    ensures Roomy(s.(latest := now), maxVariants, e) == Roomy(s, maxVariants, e)
  {
  }

  lemma RoomyMeans(s: State, maxVariants: nat, e: Entry)
    requires Roomy(s, maxVariants, e)
    ensures |s.parts| == 2 && Fits(s.parts, e) && |Bucket(s.buckets, e.key)| < maxVariants
    ensures forall x :: x in s.resident && x.key == e.key ==> !Overlap(x.scope, e.scope)
  {
  }

  /** A restore step: nothing resident is lost but what was past its retention,
      and at most the restored entry is new. */
  ghost predicate Restoring(p: Past, p': Past, key: Key, now: nat, stored: bool, entry: Option<Entry>) {
    && (entry.Some? <==> stored)
    && (entry.Some? ==> entry.value !in p.resident)
    && (forall e :: e in p'.resident <==>
          entry == Some(e) || (e in p.resident && !(e.key == key && !Retained(e, now))))
    && p'.log == p.log + (if entry.Some? then [Restored(entry.value, Epoch(p.log))] else [])
    && p'.restored == p.restored + (if entry.Some? then {entry.value} else {})
    && p'.refreshAdmitted == p.refreshAdmitted
  }

  /** `stamp` is older than the last use of every entry of one partition that
      was there at `clock`. */
  ghost predicate Older(stamp: nat, resident: set<Entry>, accessed: map<nat, nat>, clock: nat, negative: bool) {
    forall e :: e in resident && e.id <= clock && e.negative == negative ==> e.id in accessed && stamp < accessed[e.id]
  }

  lemma RestoredNone(p: Past, p': Past, key: Key, now: nat)
    requires p' == p.(latest := now, resident := p'.resident)
    requires forall e :: e in p'.resident <==> e in p.resident && !(e.key == key && !Retained(e, now))
    ensures Restoring(p, p', key, now, false, None)
  {
    hide Retained;
  }

  lemma RestoredOne(p: Past, m: Past, p': Past, key: Key, now: nat, e: Entry)
    requires e !in p.resident
    requires m == p.(latest := now, resident := m.resident)
    requires forall x :: x in m.resident <==> x in p.resident && !(x.key == key && !Retained(x, now))
    requires p' == m.(resident := m.resident + {e}, log := m.log + [Restored(e, Epoch(m.log))],
                      restored := m.restored + {e}, recency := p'.recency)
    ensures Restoring(p, p', key, now, true, Some(e))
  {
    hide Retained;
  }

  lemma PreparedSane(id: nat, key: Key, prepared: Result<Prepared>, scope: Scope, now: nat, charge: nat,
                     policy: Policies, staleRetention: nat)
    requires Preparable(key, prepared, policy) && prepared.Ok?
    ensures Sane(AnswerEntry(id, key, prepared.value, scope, now, charge, policy.For(key), staleRetention),
                 policy.For(key), now)
    ensures Windowed({AnswerEntry(id, key, prepared.value, scope, now, charge, policy.For(key), staleRetention)}, policy,
                     staleRetention)
  {
    hide Sane, IsNegative, Replayable;
    NewAnswerSane(id, key, prepared.value, scope, now, charge, policy.For(key), staleRetention);
  }

  lemma RevocationRestored(records: map<Class, Phase>, before: set<Entry>, after: set<Entry>, restored: set<Entry>,
                           e: Entry)
    requires RevocationHolds(records, before - restored) && after <= before + {e}
    ensures RevocationHolds(records, after - (restored + {e}))
  {
  }

  /** The stamp test on the recency list says the same about the entries. */
  lemma OlderMeans(s: State, maxVariants: nat, policy: Policies, stamp: nat, e: Entry)
    requires Good(s, maxVariants, policy) && |s.parts| == 2 && e.id == s.clock + 1
    ensures Below(stamp, s.parts[One(e.negative)].lru, s.accessed)
       <==> Older(stamp, s.resident + {e}, s.accessed, s.clock, e.negative)
  {
    hide Filed, Tracked, Recent, LearnedOf, FailuresOf, AllSane, Settled, NoDuplicates;
    SideListed(s.parts, s.resident, s.readers);
    var lru := s.parts[One(e.negative)].lru;
    assert forall x :: x in lru <==> x in s.resident && x.negative == e.negative;
  }

  ghost function Chosen(entries: set<Entry>, drop: Entry -> bool): set<Entry> {
    set e | e in entries && drop(e)
  }

  lemma BothSides(s: State, maxVariants: nat, policy: Policies, drop: Entry -> bool)
    requires Good(s, maxVariants, policy) && |s.parts| == 2
    ensures var victims := Only(s.parts[0].lru, drop) + Only(s.parts[1].lru, drop);
      && NoDuplicates(victims)
      && (forall e :: e in victims <==> e in s.resident && drop(e))
      && |victims| == |Chosen(s.resident, drop)|
  {
    SideListed(s.parts, s.resident, s.readers);
    hide Good, NoDuplicates;
    var a, b := Only(s.parts[0].lru, drop), Only(s.parts[1].lru, drop);
    OnlyDistinct(s.parts[0].lru, drop);
    OnlyDistinct(s.parts[1].lru, drop);
    forall i, j | 0 <= i < |a| && 0 <= j < |b| ensures a[i] != b[j] {
      assert a[i] in a && b[j] in b;
    }
    JoinDistinct(a, b);
    forall e ensures e in a + b <==> e in s.resident && drop(e) {
      if e in s.resident && drop(e) {
        assert e in Side(s.resident, e.negative);
      }
    }
    ListedSize(a + b, Chosen(s.resident, drop));
  }

  lemma RevocationForgets(records: map<Class, Phase>, before: set<Entry>, after: set<Entry>, filter: Filter)
    requires RevocationHolds(records, before) && after <= before
    ensures RevocationHolds(Forget(records, filter), after)
  {
  }

  lemma LiftedGood(s: State, maxVariants: nat, policy: Policies, clock: nat)
    requires Good(s, maxVariants, policy) && s.clock <= clock
    ensures Good(s.(clock := clock), maxVariants, policy)
  {
    hide Stocked, Filed, AllSane, Recent, LearnedOf, FailuresOf;
  }

  /** Read back.  An answer stored for the namespace its own response assigned,
      or reclassified as learned, is what the same query finds at once, whether
      stale answers are allowed or not. */
  lemma ReadBack(ctx: Context, received: Option<ClientSubnet>, scope: Scope, e: Entry, p: Past,
                 now: nat, allowStale: bool, hit: Option<Entry>)
    requires ResponseScope(ctx, received) == Some(scope)
    requires e.scope == scope || (scope.ExactSource? && e.scope == Learned(IsIpv4(scope.net.addr)))
    requires e in p.resident && e.inserted == now && 0 < e.lifetime <= e.retention && e.failure.None?
    requires Looked(p, e.key, ctx.outgoing, now, allowStale, hit)
    ensures hit == Some(e)
  {
    StorageScopeServesItsQuery(ctx, received);
    if e.scope != scope {
      LearnedServesItsQuery(ctx, scope);
    }
    assert Serves(e, ctx.outgoing, now, allowStale);
  }

  lemma EpochSame(log: seq<Event>, ev: Event)
    ensures Epoch(log + [ev]) == Epoch(log) + One(ev.Invalidated?)
  {
    assert (log + [ev])[..|log|] == log;
  }

  lemma AnsweringEpoch(p: Past, p': Past, key: Key, stored: Scope, now: nat, d: Decision, entry: Option<Entry>)
    requires Answering(p, p', key, stored, now, d, entry)
    ensures Epoch(p'.log) == Epoch(p.log)
  {
    EpochSame(p.log, Answered(key, stored, Epoch(p.log), entry));
  }

  lemma FailingEpoch(p: Past, p': Past, f: Entry, d: Decision)
    requires Failing(p, p', f, d)
    ensures Epoch(p'.log) == Epoch(p.log)
  {
    EpochSame(p.log, Failed(f, Epoch(p.log)));
    assert p.log + [] == p.log;
  }

  /** Every entry that an answer cost the shard was superseded, past its
      retention, or evicted from the answer's own partition. */
  ghost predicate Explained(before: set<Entry>, after: set<Entry>, key: Key, stored: Scope, now: nat,
                            prepared: Result<Prepared>) {
    forall e :: e in before && e !in after ==>
      || (e.key == key && (Overlap(e.scope, stored) || !Retained(e, now)))
      || (prepared.Ok? && e.negative == prepared.value.negative)
  }

  lemma LossExplained(before: set<Entry>, mid: set<Entry>, after: set<Entry>, key: Key, stored: Scope, now: nat,
                      prepared: Result<Prepared>)
    requires forall e :: e in mid <==> e in before && !(e.key == key && !Retained(e, now))
    requires forall e :: e in mid && e !in after ==>
      (e.key == key && Overlap(e.scope, stored)) || (prepared.Ok? && e.negative == prepared.value.negative)
    ensures Explained(before, after, key, stored, now, prepared)
  {
    hide Overlap, Retained;
  }

  /** The record of a learned namespace, and the promotion it stands on. */
  ghost predicate Justified(cfg: SharingConfig, history: seq<Observation>, records: map<Class, Phase>, key: Key,
                            stored: Scope,
                            fingerprint: Option<Fingerprint>, now: nat)
    requires stored.Learned?
  {
    var c := Class(key, stored.ipv4);
    && c in records
    && records[c].Shared?
    && fingerprint == Some(records[c].fingerprint)
    && Promoted(cfg, history, c, records[c].fingerprint, records[c].since)
    && now < records[c].since + SHARED_MAX_AGE
  }

  lemma ObserveKeepsRevocation(before: map<Class, Phase>, after: map<Class, Phase>, placed: set<Entry>,
                               key: Key, scope: Scope, stored: Scope)
    requires RevocationHolds(before, placed)
    requires ClassOf(key, scope).None? ==> after == before && stored == scope
    requires ClassOf(key, scope).Some? ==>
      var c := ClassOf(key, scope).value;
      && (forall x :: x in after && x != c ==> x in before && after[x] == before[x])
      && (stored == scope || (stored == Learned(c.ipv4) && c in after && after[c].Shared?))
    ensures RevocationHolds(after, Survivors(placed, key, stored))
  {
  }

  lemma LaterGood(s: State, maxVariants: nat, policy: Policies, now: nat)
    requires Good(s, maxVariants, policy) && s.latest <= now
    ensures Good(s.(latest := now), maxVariants, policy)
  {
    hide Stocked, Filed, Numbered, Tracked, Recent, LearnedOf, FailuresOf, Replayable, IsNegative;
  }

  /** What placing a prepared entry does: it may evict entries of its own
      partition, and stores the entry under the next id or not at all. */
  ghost predicate Placed(s: State, s': State, t: Entry, stamp: Option<nat>, refresh: bool, stored: bool) {
    var e := t.(id := s.clock + 1);
    && (stored ==> e !in s.resident && e in s'.resident)
    && s'.resident <= s.resident + (if stored then {e} else {})
    && (forall x :: x in s.resident && x !in s'.resident ==> x.negative == t.negative)
    && s'.clock == s.clock + One(stored)
    && s'.accessed == (if stored then s.accessed[e.id := FirstUse(e, stamp)] else s.accessed)
    && s'.refreshAdmitted == s.refreshAdmitted + One(stored && refresh)
    && s'.refreshUseful == s.refreshUseful
    && s'.latest == s.latest
    && s'.readers == s.readers
    && (stamp.None? || !stored ==> s'.recency == s.recency)
    && SameBudgets(s.parts, s'.parts)
  }

  /** The entry is a variant of the key with this sign. */
  ghost predicate Variant(e: Entry, key: Key, negative: bool) {
    e.key == key && e.negative == negative
  }

  /** The partition has a slot, and the bytes, for one more entry. */
  ghost predicate Ample(p: Partition, charge: nat) {
    |p.lru| + 1 <= p.maxEntries && p.charged + charge <= p.maxBytes
  }

  /** Entries went from the end of the list only, and the last of them had to go:
      with it, one more entry would not fit.  What a reader holds frees no bytes. */
  ghost predicate Trimmed(p: Partition, p': Partition, readers: multiset<Entry>, charge: nat) {
    && p'.lru <= p.lru && p'.maxEntries == p.maxEntries && p'.maxBytes == p.maxBytes
    && (|p'.lru| == |p.lru| || !Ample(WithBack(p', p.lru[|p'.lru|], readers), charge))
  }

  ghost function WithBack(p: Partition, x: Entry, readers: multiset<Entry>): Partition {
    p.(lru := p.lru + [x], charged := p.charged + (if x in readers then 0 else x.charge))
  }

  /** A full bucket gives up exactly one variant of the same sign, if it has one;
      otherwise nothing goes. */
  ghost predicate Freeing(before: set<Entry>, after: set<Entry>, maxVariants: nat, key: Key, negative: bool,
                          reason: Option<Reason>) {
    || (after == before && (|Variants(before, key)| < maxVariants || reason.Some?))
    || (|Variants(before, key)| >= maxVariants &&
        exists x :: Variant(x, key, negative) && x in before && after == before - {x})
  }

  /** What storing an entry may cost, and why it may find no place.  Below the
      variant ceiling and with a slot and the bytes to spare it is stored and costs
      nothing; at the ceiling it costs one variant of its sign.  It finds no place
      if it is larger than its partition, if its key is at the ceiling with
      variants of the other sign only, or if readers still hold too many bytes when
      nothing more can be evicted. */
  ghost predicate Choosing(s: State, s': State, maxVariants: nat, key: Key, negative: bool, charge: nat,
                           reason: Option<Reason>) {
    && |s.parts| == |s'.parts| == 2
    && var i := if negative then 1 else 0;
    && var p := s.parts[i];
    && var tooBig, full := charge > p.maxBytes || p.maxEntries == 0, |Variants(s.resident, key)| >= maxVariants;
    && (reason.Some? ==> reason.value == Capacity || reason.value == VariantLimit)
    && (tooBig ==> reason == Some(Capacity) && s'.resident == s.resident)
    && (reason == Some(VariantLimit) <==>
        !tooBig && full && forall x :: x in s.resident && x.key == key ==> x.negative != negative)
    && (reason == Some(VariantLimit) ==> s'.resident == s.resident)
    && (reason == Some(Capacity) && !tooBig ==> s'.parts[i].lru == [] && s'.parts[i].charged + charge > p.maxBytes)
    && (Ample(p, charge) && !full ==> reason.None? && s.resident <= s'.resident)
    && (Ample(p, charge) && full && reason != Some(VariantLimit) ==>
          && reason.None?
          && exists x :: Variant(x, key, negative) && x in s.resident && s.resident * s'.resident == s.resident - {x})
  }

  /** What an answer leaves before it needs a place: not what it supersedes, and
      not what is past its retention. */
  ghost function Spare(entries: set<Entry>, key: Key, stored: Scope, now: nat): set<Entry> {
    set e | e in entries && !(e.key == key && (!Retained(e, now) || Overlap(e.scope, stored)))
  }

  /** What a failure leaves of the failures before it. */
  ghost function OutlivingFailure(entries: set<Entry>, key: Key, scope: Scope): set<Entry> {
    set e | e in entries && !(e.key == key && Overlap(e.scope, scope) && e.failure.Some?)
  }

  /** What a failure leaves before it needs a place: answers stay. */
  ghost function SpareFailing(entries: set<Entry>, key: Key, scope: Scope, now: nat): set<Entry> {
    set e | e in entries && !(e.key == key && (!Retained(e, now) || (Overlap(e.scope, scope) && e.failure.Some?)))
  }

  /** Exactly the entries of `keep` are left, and charged for. */
  ghost predicate Left(s: State, m: State, keep: set<Entry>, maxVariants: nat, policy: Policies) {
    Good(m, maxVariants, policy) && Lost(s, m) && m.resident == keep
  }

  /** Once only `keep` is left, storing the entry costs what it must. */
  ghost predicate Frugal(s: State, s': State, keep: set<Entry>, maxVariants: nat, policy: Policies, key: Key,
                         negative: bool, charge: nat, reason: Option<Reason>) {
    exists m: State ::
      Left(s, m, keep, maxVariants, policy) && Choosing(m, s', maxVariants, key, negative, charge, reason)
  }

  lemma FrugalIf(s: State, m: State, s': State, maxVariants: nat, policy: Policies, key: Key, negative: bool,
                 charge: nat, reason: Option<Reason>)
    requires Good(m, maxVariants, policy) && Lost(s, m)
    requires Choosing(m, s', maxVariants, key, negative, charge, reason)
    ensures Frugal(s, s', m.resident, maxVariants, policy, key, negative, charge, reason)
  {
    hide Good, Lost, Choosing;
    assert Left(s, m, m.resident, maxVariants, policy);
  }

  lemma FrugalSooner(s: State, b: State, s': State, keep: set<Entry>, maxVariants: nat, policy: Policies, key: Key,
                     negative: bool, charge: nat, reason: Option<Reason>)
    requires Lost(s, b) && Frugal(b, s', keep, maxVariants, policy, key, negative, charge, reason)
    ensures Frugal(s, s', keep, maxVariants, policy, key, negative, charge, reason)
  {
    hide Good, Lost, Choosing;
    var m: State :| Left(b, m, keep, maxVariants, policy) &&
                    Choosing(m, s', maxVariants, key, negative, charge, reason);
    LostTwice(s, b, m);
    assert Left(s, m, keep, maxVariants, policy);
  }

  lemma SparesSurvive(before: set<Entry>, pruned: set<Entry>, key: Key, stored: Scope, now: nat)
    requires forall e :: e in pruned <==> e in before && !(e.key == key && !Retained(e, now))
    ensures Survivors(pruned, key, stored) == Spare(before, key, stored, now)
  {
    hide Overlap, Retained;
  }

  lemma SparesFailing(before: set<Entry>, pruned: set<Entry>, key: Key, scope: Scope, now: nat)
    requires forall e :: e in pruned <==> e in before && !(e.key == key && !Retained(e, now))
    ensures OutlivingFailure(pruned, key, scope) == SpareFailing(before, key, scope, now)
  {
    hide Overlap, Retained;
  }

  lemma NotTrimmed(p: Partition, readers: multiset<Entry>, charge: nat)
    ensures Trimmed(p, p, readers, charge)
  {
  }

  lemma ChoseNone(s: State, maxVariants: nat, t: Entry, reason: Reason)
    requires |s.parts| == 2
    requires var p := s.parts[One(t.negative)];
      && (reason == Capacity || reason == VariantLimit)
      && (reason == Capacity <==> t.charge > p.maxBytes || p.maxEntries == 0)
    requires reason == VariantLimit ==>
      && |Variants(s.resident, t.key)| >= maxVariants
      && forall x :: x in s.resident && x.key == t.key ==> x.negative != t.negative
    ensures Choosing(s, s, maxVariants, t.key, t.negative, t.charge, Some(reason))
  {
  }

  lemma Chose(s: State, f: State, s': State, maxVariants: nat, t: Entry, reason: Option<Reason>)
    requires |s.parts| == |f.parts| == |s'.parts| == 2 && SameBudgets(s.parts, s'.parts)
    requires Freeing(s.resident, f.resident, maxVariants, t.key, t.negative, None)
    requires reason == Some(Capacity) || reason.None?
    requires var at := One(t.negative);
      && t.charge <= s.parts[at].maxBytes && s.parts[at].maxEntries > 0
      && (Ample(s.parts[at], t.charge) ==> reason.None? && s' == f)
      && (reason.Some? ==> s'.parts[at].lru == [] && s'.parts[at].charged + t.charge > s'.parts[at].maxBytes)
    ensures Choosing(s, s', maxVariants, t.key, t.negative, t.charge, reason)
  {
    hide Ample, Variants;
    if |Variants(s.resident, t.key)| >= maxVariants {
      var x :| Variant(x, t.key, t.negative) && x in s.resident && f.resident == s.resident - {x};
      assert s.resident * f.resident == s.resident - {x};
    }
  }

  /** Removing entries never takes room away. */
  lemma AmpleStill(s: State, t: State, maxVariants: nat, policy: Policies, at: nat, charge: nat)
    requires Good(s, maxVariants, policy) && Good(t, maxVariants, policy) && Lost(s, t)
    requires |s.parts| == |t.parts| == 2 && at < 2
    ensures Ample(s.parts[at], charge) ==> Ample(t.parts[at], charge)
  {
  }

  lemma FullAtLast(s: State, at: nat, t: Entry)
    requires |s.parts| == 2 && at == One(t.negative) && !Fits(s.parts, t) && s.parts[at].lru == []
    requires 0 < s.parts[at].maxEntries
    ensures s.parts[at].charged + t.charge > s.parts[at].maxBytes
  {
  }

  lemma TrimmedOn(s: State, t: State, e: Entry, last: Entry)
    requires |s.parts| == |t.parts| == 2 && !Fits(t.parts, e) && Removable(t, last) && last.negative == e.negative
    requires var at := One(e.negative);
      && Trimmed(s.parts[at], t.parts[at], t.readers, e.charge)
      && t.parts[at].lru != [] && last == t.parts[at].lru[|t.parts[at].lru| - 1]
      && Removed(t, last).parts[at].lru == t.parts[at].lru[..|t.parts[at].lru| - 1]
    ensures var at := One(e.negative);
      Trimmed(s.parts[at], Removed(t, last).parts[at], t.readers, e.charge)
  {
    hide Unfile, Without;
  }

  /** What was chosen stays so once the entry is there. */
  lemma ChosenNow(s: State, m: State, maxVariants: nat, policy: Policies, t: Entry, stamp: Option<nat>, refresh: bool)
    requires Good(s, maxVariants, policy) && Lost(s, m) && |m.parts| == 2
    requires Choosing(s, m, maxVariants, t.key, t.negative, t.charge, None)
    ensures Choosing(s, Inserted(m, t.(id := m.clock + 1), stamp, refresh), maxVariants, t.key, t.negative, t.charge,
                     None)
  {
    hide Good, File, Below, FirstUse, Ample, Lost;
    NewId(s, maxVariants, policy);
    LostMeans(s, m);
    var s' := Inserted(m, t.(id := m.clock + 1), stamp, refresh);
    assert s.resident * s'.resident == s.resident * m.resident;
  }

  /** What a step that may store one entry leaves of the clock, the uses and the
      useful refreshes. */
  ghost predicate Used(s: State, s': State, stored: bool) {
    && s'.clock == s.clock + One(stored)
    && s'.accessed == (if stored then s.accessed[s.clock + 1 := s.clock + 1] else s.accessed)
    && s'.readers == s.readers
    && s'.refreshUseful == s.refreshUseful
  }

  lemma UsedNot(s: State, s': State)
    requires Lost(s, s')
    ensures Used(s, s', false)
  {
  }

  lemma UsedTwice(s: State, m: State, s': State, stored: bool)
    requires Used(s, m, false) && Used(m, s', stored)
    ensures Used(s, s', stored)
  {
  }

  lemma PlacedUses(s: State, m: State, s': State, t: Entry, stamp: Option<nat>, refresh: bool, stored: bool)
    requires Lost(s, m) && Placed(m, s', t, stamp, refresh, stored)
    ensures stamp.None? ==> Used(s, s', stored) && s'.recency == s.recency
  {
  }

  lemma PlacedNot(s: State, s': State, t: Entry, stamp: Option<nat>, refresh: bool)
    requires Lost(s, s') && forall x :: x in s.resident && x !in s'.resident ==> x.negative == t.negative
    ensures Placed(s, s', t, stamp, refresh, false)
  {
  }

  lemma PlacedNow(s: State, m: State, maxVariants: nat, policy: Policies, t: Entry, stamp: Option<nat>, refresh: bool)
    requires Lost(s, m) && forall x :: x in s.resident && x !in m.resident ==> x.negative == t.negative
    requires Good(s, maxVariants, policy) && |m.parts| == 2
    ensures Placed(s, Inserted(m, t.(id := m.clock + 1), stamp, refresh), t, stamp, refresh, true)
  {
    hide Good, File, Below, FirstUse;
    NewId(s, maxVariants, policy);
  }

  /** What became of a response: whether it removed older knowledge, and why it
      was not kept. */
  datatype Decision = Decision(superseded: bool, reason: Option<Reason>)
  {
    predicate Stored() {
      reason.None?
    }
  }

  /** The first entry with the least use stamp. */
  function LeastUsed(s: seq<Entry>, accessed: map<nat, nat>): (e: Entry)
    requires s != []
    ensures e in s
  {
    if |s| == 1 then s[0]
    else
      var n := |s| - 1;
      var best := LeastUsed(s[..n], accessed);
      if s[n].id in accessed && best.id in accessed && accessed[s[n].id] < accessed[best.id] then s[n] else best
  }

  ghost predicate UsedBefore(x: Entry, y: Entry, accessed: map<nat, nat>) {
    x.id in accessed && y.id in accessed && accessed[x.id] <= accessed[y.id]
  }

  lemma {:induction false} LeastIsFirst(s: seq<Entry>, accessed: map<nat, nat>)
    requires s != [] && forall x :: x in s ==> x.id in accessed
    ensures forall x :: x in s ==> UsedBefore(LeastUsed(s, accessed), x, accessed)
  {
    if |s| > 1 {
      var n := |s| - 1;
      assert s == s[..n] + [s[n]];
      LeastIsFirst(s[..n], accessed);
    }
  }

  lemma AllUsed(s: State, maxVariants: nat, policy: Policies)
    requires Good(s, maxVariants, policy)
    ensures forall e :: e in s.resident ==> e.id in s.accessed
  {
    hide Stocked, Filed, Tracked, AllSane, Recent, LearnedOf, FailuresOf, Settled;
  }

  /** Evicting the least recently used entry shortens its list by the end. */
  lemma LastTaken(s: State, maxVariants: nat, policy: Policies, at: nat)
    requires Good(s, maxVariants, policy) && at < 2 && |s.parts| == 2 && s.parts[at].lru != []
    requires var last := s.parts[at].lru[|s.parts[at].lru| - 1]; Removable(s, last) && One(last.negative) == at
    ensures var lru := s.parts[at].lru; Removed(s, lru[|lru| - 1]).parts[at].lru == lru[..|lru| - 1]
  {
    hide Filed, Numbered, Tracked, AllSane, Recent, LearnedOf, FailuresOf, Settled;
    SideListed(s.parts, s.resident, s.readers);
    WithoutLast(s.parts[at].lru);
  }

  lemma VictimsListed(s: State, maxVariants: nat, policy: Policies, key: Key, drop: Entry -> bool)
    requires Good(s, maxVariants, policy)
    ensures var victims := Only(Bucket(s.buckets, key), drop);
      && NoDuplicates(victims)
      && forall e :: e in victims <==> e in s.resident && e.key == key && drop(e)
  {
    hide Good;
    BucketLists(s, maxVariants, policy, key);
    OnlyDistinct(Bucket(s.buckets, key), drop);
  }

  lemma LastIsResident(s: State, maxVariants: nat, policy: Policies, at: nat)
    requires Good(s, maxVariants, policy) && at < 2 && |s.parts| == 2 && s.parts[at].lru != []
    ensures var last := s.parts[at].lru[|s.parts[at].lru| - 1];
      last in s.resident && One(last.negative) == at
  {
    hide Filed, Numbered, Tracked, AllSane, Recent, LearnedOf, FailuresOf, Settled, NoDuplicates;
    var lru := s.parts[at].lru;
    SideListed(s.parts, s.resident, s.readers);
    assert lru[|lru| - 1] in lru;
  }

  // ----- Revocations and their cooldowns -----

  /** The step stored a learned entry of the class. */
  ghost predicate PlacesLearned(ev: Event, c: Class) {
    ev.Answered? && ev.stored.Some? && ev.stored.value.key == c.key && ev.stored.value.scope == Learned(c.ipv4)
  }

  /** Since a revocation no answer placed a learned entry before its cooldown ended. */
  ghost predicate Spared(log: seq<Event>, c: Class, cd: Cooldown) {
    forall i :: cd.since <= i < |log| && PlacesLearned(log[i], c) ==> cd.until <= log[i].stored.value.inserted
  }

  /** The revocations of one class: the record is that of the last one until its
      cooldown ends, no earlier one ends later, and each was heeded. */
  ghost predicate Heeded(log: seq<Event>, latest: nat, cds: seq<Cooldown>, c: Class, phase: Phase) {
    && cds != []
    && var last := cds[|cds| - 1];
    && (phase == Revoked(last.until) || last.until <= latest)
    && forall k :: 0 <= k < |cds| ==> cds[k].since <= |log| && cds[k].until <= last.until && Spared(log, c, cds[k])
  }

  ghost predicate Cooled(log: seq<Event>, latest: nat, cooling: map<Class, seq<Cooldown>>, records: map<Class, Phase>) {
    forall c :: c in cooling ==> c in records && Heeded(log, latest, cooling[c], c, records[c])
  }

  /** The filters of the invalidations, in order. */
  ghost function Filters(log: seq<Event>): seq<Filter> {
    if log == [] then []
    else
      var n := |log| - 1;
      Filters(log[..n]) + (if log[n].Invalidated? then [log[n].filter] else [])
  }

  /** The history tells the cooldowns, and the invalidations the table was told. */
  ghost predicate Annals(p: Past, records: map<Class, Phase>, invalidations: seq<Filter>) {
    Cooled(p.log, p.latest, p.cooling, records) && Filters(p.log) == invalidations
  }

  /** The cooldowns once `records` are left and `c` may have been revoked. */
  ghost function NextCooling(cooling: map<Class, seq<Cooldown>>, records: map<Class, Phase>, c: Option<Class>,
                             revoked: bool,
                             since: nat, until: nat): map<Class, seq<Cooldown>> {
    var left := map x | x in cooling && x in records :: cooling[x];
    if revoked && c.Some?
    then left[c.value := (if c.value in left then left[c.value] else []) + [Cooldown(since, until)]]
    else left
  }

  /** Records keep the epoch they were started in; a new one starts in `epoch`. */
  ghost predicate Born(before: map<Class, nat>, old_: map<Class, Phase>, after: map<Class, nat>, records: map<Class,
                       Phase>, epoch: nat) {
    forall c :: c in records ==>
      c in after && (if c in old_ then c in before && after[c] == before[c] else after[c] == epoch)
  }

  function LifetimeOf(prepared: Result<Prepared>): Option<nat> {
    if prepared.Ok? then Some(prepared.value.lifetime * SECOND) else None
  }

  lemma {:induction false} FiltersSkip(log: seq<Event>, evs: seq<Event>)
    requires forall i :: 0 <= i < |evs| ==> !evs[i].Invalidated?
    ensures Filters(log + evs) == Filters(log)
  {
    if evs == [] {
      assert log + evs == log;
    } else {
      var n := |evs| - 1;
      FiltersSkip(log, evs[..n]);
      assert (log + evs)[..|log| + n] == log + evs[..n];
    }
  }

  lemma {:induction false} FiltersCount(log: seq<Event>)
    ensures |Filters(log)| == Epoch(log)
  {
    if log != [] {
      FiltersCount(log[..|log| - 1]);
    }
  }

  lemma FiltersCounted(p: Past, records: map<Class, Phase>, invalidations: seq<Filter>)
    requires Annals(p, records, invalidations)
    ensures |invalidations| == Epoch(p.log)
  {
    FiltersCount(p.log);
  }

  /** Filter number `Epoch(log[..j])` is that of step `j`. */
  lemma {:induction false} FilterAt(log: seq<Event>, j: nat)
    requires j < |log| && log[j].Invalidated?
    ensures Epoch(log[..j]) < |Filters(log)| && Filters(log)[Epoch(log[..j])] == log[j].filter
    decreases |log|
  {
    var n := |log| - 1;
    FiltersCount(log[..n]);
    if j < n {
      FilterAt(log[..n], j);
      assert log[..n][..j] == log[..j];
    }
  }

  /** A step that places nothing learned before a cooldown ends goes on heeding it. */
  lemma SparedOn(log: seq<Event>, ev: Event, c: Class, cd: Cooldown)
    requires Spared(log, c, cd)
    requires PlacesLearned(ev, c) && cd.since <= |log| ==> cd.until <= ev.stored.value.inserted
    ensures Spared(log + [ev], c, cd)
  {
  }

  lemma HeededOn(log: seq<Event>, ev: Event, latest: nat, latest': nat, cds: seq<Cooldown>, c: Class, phase: Phase,
                 phase': Phase)
    requires Heeded(log, latest, cds, c, phase) && latest <= latest'
    requires latest' < cds[|cds| - 1].until ==> phase' == phase
    requires PlacesLearned(ev, c) ==> cds[|cds| - 1].until <= ev.stored.value.inserted
    ensures Heeded(log + [ev], latest', cds, c, phase')
  {
    hide Spared, PlacesLearned;
    forall k | 0 <= k < |cds| ensures Spared(log + [ev], c, cds[k]) {
      SparedOn(log, ev, c, cds[k]);
    }
  }

  /** A revocation outlasts those before it. */
  lemma HeededMore(log: seq<Event>, latest: nat, cds: seq<Cooldown>, c: Class, phase: Phase, until: nat)
    requires Heeded(log, latest, cds, c, phase) && cds[|cds| - 1].until <= until
    ensures Heeded(log, latest, cds + [Cooldown(|log|, until)], c, Revoked(until))
  {
    hide Spared;
    SparedNow(log, c, until);
  }

  lemma HeededFirst(log: seq<Event>, latest: nat, c: Class, until: nat)
    ensures Heeded(log, latest, [Cooldown(|log|, until)], c, Revoked(until))
  {
    SparedNow(log, c, until);
  }

  lemma SparedNow(log: seq<Event>, c: Class, until: nat)
    ensures Spared(log, c, Cooldown(|log|, until))
  {
  }

  /** Steps that no answer took change no cooldown. */
  lemma AnnalsOn(p: Past, p': Past, evs: seq<Event>, records: map<Class, Phase>, invalidations: seq<Filter>)
    requires Annals(p, records, invalidations) && |evs| <= 1
    requires p'.log == p.log + evs && p'.cooling == p.cooling && p.latest <= p'.latest
    requires forall i :: 0 <= i < |evs| ==> evs[i].Failed? || evs[i].Restored?
    ensures Annals(p', records, invalidations)
  {
    hide Heeded, Filters;
    FiltersSkip(p.log, evs);
    forall c | c in p'.cooling ensures Heeded(p'.log, p'.latest, p'.cooling[c], c, records[c]) {
      if evs == [] {
        assert p'.log == p.log;
        HeededLater(p.log, p.latest, p'.latest, p.cooling[c], c, records[c]);
      } else {
        assert evs == [evs[0]];
        CooledClass(p.log, p.latest, p.cooling, records, c);
        HeededOn(p.log, evs[0], p.latest, p'.latest, p.cooling[c], c, records[c], records[c]);
      }
    }
  }

  lemma CooledClass(log: seq<Event>, latest: nat, cooling: map<Class, seq<Cooldown>>, records: map<Class, Phase>,
                    c: Class)
    requires Cooled(log, latest, cooling, records) && c in cooling
    ensures c in records && Heeded(log, latest, cooling[c], c, records[c]) && cooling[c] != []
  {
  }

  lemma HeededLater(log: seq<Event>, latest: nat, latest': nat, cds: seq<Cooldown>, c: Class, phase: Phase)
    requires Heeded(log, latest, cds, c, phase) && latest <= latest'
    ensures Heeded(log, latest', cds, c, phase)
  {
    hide Spared;
  }

  /** An answer that took no part in learning. */
  lemma AnnalsPlain(p: Past, p': Past, records: map<Class, Phase>, invalidations: seq<Filter>, key: Key, scope: Scope,
                    entry: Option<Entry>, until: nat)
    requires Annals(p, records, invalidations) && p.latest <= p'.latest && !scope.Learned?
    requires p'.log == p.log + [Answered(key, scope, Epoch(p.log),
                                         entry)] && (entry.Some? ==> entry.value.scope == scope)
    requires p'.cooling == NextCooling(p.cooling, records, ClassOf(key, scope), false, |p.log| + 1, until)
    ensures Annals(p', records, invalidations)
  {
    hide Heeded, Filters;
    FiltersSkip(p.log, [Answered(key, scope, Epoch(p.log), entry)]);
    forall c | c in p'.cooling ensures Heeded(p'.log, p'.latest, p'.cooling[c], c, records[c]) {
      CooledClass(p.log, p.latest, p.cooling, records, c);
      HeededOn(p.log, Answered(key, scope, Epoch(p.log), entry), p.latest, p'.latest, p.cooling[c], c, records[c],
               records[c]);
    }
  }

  /** An answer of a cooling class is neither learned nor able to end the cooldown;
      a revocation starts one. */
  lemma AnnalsAnswer(p: Past, p': Past, before: map<Class, Phase>, records: map<Class, Phase>,
                     invalidations: seq<Filter>,
                     cfg: SharingConfig, key: Key, scope: Scope, fingerprint: Option<Fingerprint>, lifetime: Option<nat>,
                     now: nat, stored: Scope, revoked: bool, entry: Option<Entry>)
    requires Annals(p, before, invalidations) && p.latest <= now == p'.latest && !scope.Learned?
    requires Observed(cfg, before, records, key, scope, fingerprint, lifetime, now, stored, revoked)
    requires p'.log == p.log + [Answered(key, stored, Epoch(p.log), entry)]
    requires entry.Some? ==> entry.value.key == key && entry.value.scope == stored && entry.value.inserted == now
    requires p'.cooling ==
      NextCooling(p.cooling, records, ClassOf(key, scope), revoked, |p.log| + 1, now + cfg.cooldown)
    ensures Annals(p', records, invalidations)
  {
    hide Heeded, Filters, Observed;
    FiltersSkip(p.log, [Answered(key, stored, Epoch(p.log), entry)]);
    ObservedClass(cfg, before, records, key, scope, fingerprint, lifetime, now, stored, revoked);
    forall c | c in p'.cooling ensures c in records && Heeded(p'.log, now, p'.cooling[c], c, records[c]) {
      if c in p.cooling && c in records {
        CooledClass(p.log, p.latest, p.cooling, before, c);
        AnswerHeeds(p, Answered(key, stored, Epoch(p.log), entry), before, records, cfg, key, scope, fingerprint,
                    lifetime,
                    now, stored, revoked, c);
      } else {
        assert p'.cooling[c] == [Cooldown(|p'.log|, now + cfg.cooldown)];
        HeededFirst(p'.log, now, c, now + cfg.cooldown);
      }
    }
  }

  /** What an answer does to the records of the classes that cool. */
  lemma ObservedClass(cfg: SharingConfig, before: map<Class, Phase>, after: map<Class, Phase>, key: Key, scope: Scope,
                      fingerprint: Option<Fingerprint>, lifetime: Option<nat>, now: nat, stored: Scope, revoked: bool)
    requires Observed(cfg, before, after, key, scope, fingerprint, lifetime, now, stored, revoked)
    ensures revoked ==>
      && ClassOf(key, scope).Some? && ClassOf(key, scope).value in before && ClassOf(key, scope).value in after
      && after[ClassOf(key, scope).value] == Revoked(now + cfg.cooldown)
  {
    hide NextPhase, Learns, Contradicts;
  }

  lemma AnswerHeeds(p: Past, ev: Event, before: map<Class, Phase>, records: map<Class, Phase>, cfg: SharingConfig,
                    key: Key,
                    scope: Scope, fingerprint: Option<Fingerprint>, lifetime: Option<nat>, now: nat, stored: Scope,
                    revoked: bool, c: Class)
    requires c in p.cooling && c in before && c in records && Heeded(p.log, p.latest, p.cooling[c], c, before[c])
    requires p.latest <= now && !scope.Learned?
    requires Observed(cfg, before, records, key, scope, fingerprint, lifetime, now, stored, revoked)
    requires ev.Answered? && (ev.stored.Some? ==>
               ev.stored.value.key == key && ev.stored.value.scope == stored && ev.stored.value.inserted == now)
    ensures Heeded(p.log + [ev], now,
                   NextCooling(p.cooling, records, ClassOf(key, scope), revoked, |p.log| + 1,
                               now + cfg.cooldown)[c], c, records[c])
  {
    hide Learns, Contradicts, NextPhase, Spared;
    var cds := p.cooling[c];
    var last := cds[|cds| - 1];
    if now < last.until {
      assert before[c] == Revoked(last.until);
      if ClassOf(key, scope) == Some(c) {
        NothingLearned(cfg, before[c], Witnessed(c, scope, fingerprint, lifetime, now));
        NotRevokedAgain(before[c], scope.Network?, fingerprint, now);
      }
    }
    if revoked && ClassOf(key, scope) == Some(c) {
      HeededOn(p.log, ev, p.latest, now, cds, c, before[c], records[c]);
      HeededMore(p.log + [ev], now, cds, c, records[c], now + cfg.cooldown);
    } else {
      HeededOn(p.log, ev, p.latest, now, cds, c, before[c], records[c]);
    }
  }

  lemma NothingLearned(cfg: SharingConfig, phase: Phase, o: Observation)
    requires phase.Revoked?
    ensures !Learns(cfg, phase, o)
  {
  }

  lemma NotRevokedAgain(phase: Phase, explicitScope: bool, fp: Option<Fingerprint>, now: nat)
    requires Cooling(phase, now)
    ensures !Contradicts(phase, explicitScope, fp, now)
  {
  }

  /** An invalidation ends the cooldowns of the records it forgets. */
  lemma AnnalsInvalidated(p: Past, p': Past, before: map<Class, Phase>, filter: Filter, invalidations: seq<Filter>)
    requires Annals(p, before, invalidations) && p.latest <= p'.latest
    requires p'.log == p.log + [Invalidated(filter)]
    requires p'.cooling == NextCooling(p.cooling, Forget(before, filter), None, false, 0, 0)
    ensures Annals(p', Forget(before, filter), invalidations + [filter])
  {
    hide Epoch, Heeded;
    assert Filters(p'.log) == invalidations + [filter] by {
      assert p'.log[..|p.log|] == p.log;
    }
    hide Filters;
    forall c | c in p'.cooling
      ensures c in Forget(before, filter) && Heeded(p'.log, p'.latest, p'.cooling[c], c, Forget(before, filter)[c])
    {
      CooledClass(p.log, p.latest, p.cooling, before, c);
      HeededOn(p.log, Invalidated(filter), p.latest, p'.latest, p.cooling[c], c, before[c], before[c]);
    }
  }

  /** A revoked class has no learned entry that an answer placed. */
  ghost predicate RevocationHolds(records: map<Class, Phase>, placed: set<Entry>) {
    forall c, e :: c in records && records[c].Revoked? && e in placed && e.scope == Learned(c.ipv4) ==> e.key != c.key
  }

  lemma BudgetsMet(s: State, maxVariants: nat, policy: Policies)
    requires Good(s, maxVariants, policy)
    ensures |s.parts| == 2 && |s.budgets| == 2
    ensures forall i :: 0 <= i < 2 ==> |s.parts[i].lru| <= s.budgets[i].0 && s.parts[i].charged <= s.budgets[i].1
  {
    hide Filed, Numbered, Tracked, AllSane, Recent, LearnedOf, FailuresOf, Settled, NoDuplicates;
  }

  lemma EmptyGood(s: State, maxVariants: nat, policy: Policies)
    requires 1 <= maxVariants
    requires s.buckets == map[] && s.resident == {} && s.refreshed == {} && s.readers == multiset{}
    requires s.learned == s.failures == s.refreshUseful == s.refreshUnused == s.refreshAdmitted == 0
    requires |s.parts| == 2 && Budgeted(s.parts, s.budgets)
    requires forall i :: 0 <= i < 2 ==> s.parts[i].lru == [] && s.parts[i].detached == [] && s.parts[i].charged == 0
    ensures Good(s, maxVariants, policy)
  {
    assert Shelved(s.parts[0], Side(s.resident, false), s.readers);
    assert Shelved(s.parts[1], Side(s.resident, true), s.readers);
  }

  lemma Renamed(t: Entry, e: Entry, parts: seq<Partition>, policy: Policy, latest: nat)
    requires |parts| == 2 && e == t.(id := e.id)
    ensures Fits(parts, e) == Fits(parts, t)
    ensures Sane(t, policy, latest) ==> Sane(e, policy, latest)
  {
  }

  lemma NewId(s: State, maxVariants: nat, policy: Policies)
    requires Good(s, maxVariants, policy)
    ensures forall e :: e in s.resident ==> e.id <= s.clock
  {
    hide Stocked, Filed, Tracked, AllSane, Recent, LearnedOf, FailuresOf, Settled;
  }

  lemma LostTwice(a: State, b: State, c: State)
    requires Lost(a, b) && Lost(b, c)
    ensures Lost(a, c)
  {
    hide HeldBack;
    forall i: nat | i < |a.parts| ensures HeldBack(a, c, i) {
      assert HeldBack(a, b, i) && HeldBack(b, c, i);
      HeldBackTwice(a, b, c, i);
    }
  }

  lemma HeldBackTwice(a: State, b: State, c: State, i: nat)
    requires i < |a.parts| == |b.parts| == |c.parts| && HeldBack(a, b, i) && HeldBack(b, c, i)
    requires c.resident <= b.resident <= a.resident && b.readers == a.readers
    ensures HeldBack(a, c, i)
  {
  }

  lemma LostMeans(a: State, b: State)
    requires Lost(a, b)
    ensures b.resident <= a.resident && b.clock == a.clock && b.accessed == a.accessed && b.readers == a.readers
    ensures b.refreshAdmitted == a.refreshAdmitted && b.recency == a.recency && b.latest == a.latest
    ensures SameBudgets(a.parts, b.parts)
  {
  }

  lemma StillRoom(a: State, b: State, maxVariants: nat, policy: Policies, key: Key)
    requires Good(a, maxVariants, policy) && Good(b, maxVariants, policy) && Lost(a, b)
    requires |Bucket(a.buckets, key)| < maxVariants
    ensures |Bucket(b.buckets, key)| < maxVariants
  {
    hide Good;
    BucketLists(a, maxVariants, policy, key);
    BucketLists(b, maxVariants, policy, key);
    VariantsShrink(a.resident, b.resident, key);
  }

  lemma LostNothing(s: State)
    ensures Lost(s, s)
  {
  }

  lemma DistinctAhead(victims: seq<Entry>, i: nat)
    requires NoDuplicates(victims) && i < |victims|
    ensures victims[i] in victims && victims[i] !in Elements(victims[..i])
    ensures Elements(victims[..i + 1]) == Elements(victims[..i]) + {victims[i]}
  {
    assert victims[..i + 1] == victims[..i] + [victims[i]];
  }

  // ----- A restore that leaves the order of use -----

  const USUAL := Policy(false, 3600, 3600, false, false)
  const ANSWER := Prepared(Message(NoError, false, false, Plain, [Record(["host"], IN, 60, Data(1, 0))], [], []), 60,
                           false)

  function KeyOf(label_: string): Key {
    Key([label_], 1, false, false, true, false)
  }

  lemma AnswerPreparable(key: Key)
    requires key.kind == 1
    ensures Preparable(key, Ok(ANSWER), Policies(USUAL, map[]))
  {
    assert ANSWER.stored.answers[0].data.Kind() == 1;
    assert All(ANSWER.stored) == ANSWER.stored.answers;
  }

  const FIRST := AnswerEntry(2, KeyOf("a"), ANSWER, NoEcs, 0, 1, USUAL, 0)
  const LAST := AnswerEntry(3, KeyOf("b"), ANSWER, NoEcs, 0, 1, USUAL, 0)

  /** An empty shard with room for two entries, its clock at one. */
  ghost const START :=
    State(map[], [Partition([], [], 0, 2, 2), Partition([], [], 0, 0, 0)], 1, map[], {}, multiset{}, 0, 0, 0, 0, 0, {},
          0, true,
          [(2, 2), (0, 0)])

  lemma FirstHasRoom()
    ensures Roomy(START, 8, FIRST)
  {
  }

  lemma LastHasRoom()
    ensures |START.parts| == 2 && Roomy(Inserted(START, FIRST, Some(1), false), 8, LAST)
  {
    hide Overlap;
    var s := Inserted(START, FIRST, Some(1), false);
    assert s.parts[0] == Partition([FIRST], [], 1, 2, 2);
    assert s.resident == {FIRST};
    assert KeyOf("a").name != KeyOf("b").name by { assert KeyOf("a").name[0] != KeyOf("b").name[0]; }
  }

  lemma FirstIsNewer()
    ensures |START.parts| == 2
    ensures var s := Inserted(START, FIRST, Some(1), false);
      && s.recency && s.latest == 0 && s.clock == 2 && s.resident == {FIRST}
      && FIRST.key != KeyOf("b") && !Older(2, {FIRST, LAST}, s.accessed, 2, false)
  {
    assert KeyOf("a").name[0] != KeyOf("b").name[0];
    assert FIRST.id == 2 && !FIRST.negative;
  }

  lemma InsertedPlain(s: State, e: Entry, stamp: nat)
    requires |s.parts| == 2
    ensures Inserted(s, e, Some(stamp), false).resident == s.resident + {e}
    ensures |Inserted(s, e, Some(stamp), false).parts| == 2
  {
  }

  /** What the two steps need to know of a shard. */
  ghost predicate Holds(s: Shard, v: State)
    reads s, s.sharing
  {
    s.Valid() && s.View() == v && s.maxVariants == 8 && s.staleRetention == 0 && s.policy == Policies(USUAL, map[])
  }

  method RestoreFirst(s: Shard)
    requires Holds(s, START)
    modifies s
    ensures |START.parts| == 2 && Holds(s, Inserted(START, FIRST, Some(1), false))
  {
    hide Shard.Valid, Preparable, AnswerEntry, Inserted, Roomy, Older, Restoring, Recent;
    AnswerPreparable(KeyOf("a"));
    FirstHasRoom();
    assert AllRetained(s.past.resident, KeyOf("a"), 0);
    var _ := s.Restore(KeyOf("a"), Ok(ANSWER), NoEcs, 1, 0, 1);
  }

  method RestoreLast(s: Shard)
    requires |START.parts| == 2 && Holds(s, Inserted(START, FIRST, Some(1), false))
    modifies s
    ensures s.Valid() && |s.parts| == 2 && !Recent(s.parts, s.uses.accessed)
  {
    hide Shard.Valid, Preparable, AnswerEntry, Inserted, Roomy, Older, Restoring, Recent, Retained;
    AnswerPreparable(KeyOf("b"));
    LastHasRoom();
    FirstIsNewer();
    var _ := s.Lift(2);
    ghost var v := s.View();
    assert AllRetained(s.past.resident, KeyOf("b"), 0);
    var d := s.Restore(KeyOf("b"), Ok(ANSWER), NoEcs, 1, 0, 2);
    assert d.Stored() && v.(latest := 0) == v;
    InsertedPlain(v, LAST, 2);
    assert s.past.resident == {FIRST, LAST};
  }

  /** Two snapshots restored into one shard, the second of two records: its first
      record has the newer stamp but goes to the end of the list. */
  method RestoresOutOfOrder() returns (s: Shard)
    ensures s.Valid() && |s.parts| == 2 && !Recent(s.parts, s.uses.accessed)
  {
    hide Shard.Valid, Inserted, Recent;
    s := new Shard(8, 0, false, Policies(USUAL, map[]), SharingConfig(2, 60 * SECOND), 1024, (2, 2), (0, 0));
    var _ := s.Lift(1);
    assert s.View() == START;
    RestoreFirst(s);
    RestoreLast(s);
  }
}
