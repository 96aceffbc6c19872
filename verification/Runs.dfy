/** Whole runs of the cache: what holds after any sequence of its operations. */
module Runs {
  import opened Wrappers
  import opened Networks
  import opened Scopes
  import opened CacheTypes
  import opened Responses
  import opened Knowledge
  import opened ShardState
  import opened Sharing
  import opened Shards
  import opened Caches

  /** One operation, with what it is given. */
  datatype Step =
    | Answer(key: Key, response: Message, scope: Scope, charge: nat, fingerprint: Option<Fingerprint>, at: nat,
             work: nat,
             refresh: bool)
    | Failure(key: Key, response: Message, wire: Message, scope: Scope, charge: nat, ttl: nat,
              failure: Knowledge.Failure,
              at: nat, work: nat)
    | Query(key: Key, outgoing: Option<ClientSubnet>, at: nat, allowStale: bool, observe: bool)
    | Drop(shard: nat, entry: Entry)
    | Invalidation(filter: Filter)
  {
    /** Operations that look at the clock. */
    predicate Timed() {
      Answer? || Failure? || Query?
    }

    /** No response assigns the learned namespace. */
    predicate Given() {
      Answer? || Failure? ==> !scope.Learned?
    }
  }

  /** Times do not fall below `floor` nor below earlier ones. */
  ghost predicate Timely(steps: seq<Step>, floor: nat) {
    && (forall i :: 0 <= i < |steps| ==> steps[i].Given())
    && (forall i :: 0 <= i < |steps| && steps[i].Timed() ==> floor <= steps[i].at)
    && (forall i, j :: 0 <= i < j < |steps| && steps[i].Timed() && steps[j].Timed() ==> steps[i].at <= steps[j].at)
  }

  /** Revocations are forgotten only with the record of their class. */
  ghost predicate Remembered(before: map<Class, seq<Cooldown>>, after: map<Class, seq<Cooldown>>, stayed: set<Class>) {
    forall c :: c in before && c in stayed ==> c in after && before[c] <= after[c]
  }

  /** What one operation does to the history of a shard. */
  ghost predicate Stepped(p: Past, p': Past, records: map<Class, Phase>, refreshes: nat) {
    && p'.recency == p.recency && p'.restored == p.restored
    && p'.refreshAdmitted == p.refreshAdmitted + refreshes
    && p.log <= p'.log
    && Remembered(p.cooling, p'.cooling, records.Keys)
  }

  lemma Idle(p: Past, p': Past, records: map<Class, Phase>)
    requires p' == p.(latest := p'.latest, resident := p'.resident, log := p'.log) && p.log <= p'.log
    ensures Stepped(p, p', records, 0)
  {
  }

  lemma CooledStep(p: Past, p': Past, records: map<Class, Phase>, c: Option<Class>, revoked: bool, since: nat,
                   until: nat, n: nat)
    requires p' == p.(
      latest := p'.latest,
      resident := p'.resident,
      refreshAdmitted := p.refreshAdmitted + n,
      log := p'.log,
      cooling := NextCooling(p.cooling, records, c, revoked, since, until))
    requires p.log <= p'.log
    ensures Stepped(p, p', records, n)
  {
  }

  lemma AnswerGrows(p: Past, p': Past, key: Key, stored: Scope, now: nat, d: Decision, entry: Option<Entry>)
    requires Answering(p, p', key, stored, now, d, entry)
    ensures p.log <= p'.log
  {
  }

  lemma FailureGrows(p: Past, p': Past, f: Entry, d: Decision)
    requires Failing(p, p', f, d)
    ensures p.log <= p'.log
  {
  }

  /** Whether shard `j` stored a refresh in this step. */
  ghost function RefreshOf(c: Cache, step: Step, kept: bool, j: nat): nat
    requires c.shards != []
  {
    One(kept && step.Answer? && step.refresh && c.Route(step.key) == j)
  }

  /** The refreshes that a run stored in shard `j`. */
  ghost function Refreshes(c: Cache, steps: seq<Step>, kept: seq<bool>, j: nat): nat
    requires c.shards != [] && |kept| == |steps|
  {
    if steps == [] then 0
    else
      var n := |steps| - 1;
      Refreshes(c, steps[..n], kept[..n], j) + RefreshOf(c, steps[n], kept[n], j)
  }

  /** Takes one answer. */
  method TakeAnswer(c: Cache, step: Step) returns (kept: bool)
    requires c.Valid() && step.Answer? && step.Given()
    requires forall j :: 0 <= j < |c.shards| ==> c.shards[j].past.latest <= step.at
    modifies c.shards, Tables(c.shards)
    ensures c.Valid() && c.shards != []
    ensures forall j :: 0 <= j < |c.shards| ==>
      Stepped(old(c.shards[j].past), c.shards[j].past, c.shards[j].sharing.records, RefreshOf(c, step, kept, j))
    ensures forall j :: 0 <= j < |c.shards| ==> c.shards[j].past.latest <= step.at
  {
    hide Shard.Valid, Dealt, Answering, Explained, Justified, NoLearned, Prepare, Epoch, Shard.Kept, Shard.View,
      Observed, Born, NextCooling, Noted, Used, Stepped, Supersedes, Cache.Route, Frugal, Spare;
    var d, stored, revoked := c.Admit(step.key, step.response, step.scope, step.charge, step.fingerprint, step.at,
                                      step.work,
                                      step.refresh);
    kept := d.Stored();
    var i := c.Route(step.key);
    var s := c.shards[i];
    forall j | 0 <= j < |c.shards|
      ensures Stepped(old(c.shards[j].past), c.shards[j].past, c.shards[j].sharing.records, RefreshOf(c, step, kept, j))
    {
      if j != i || s.policy.For(step.key).bypass || !Supersedes(step.response) || step.work != c.epoch {
        Idle(old(c.shards[j].past), c.shards[j].past, c.shards[j].sharing.records);
      } else {
        ghost var prepared := Prepare(step.key.name, step.key.kind, step.response, s.policy.For(step.key));
        AnswerGrows(old(s.past), s.past, step.key, stored, step.at, d,
                    s.Kept(old(s.clock) + 1, step.key, prepared, stored, step.at, step.charge, d));
        CooledStep(old(s.past), s.past, s.sharing.records, ClassOf(step.key, step.scope), revoked, |s.past.log|,
                   step.at + s.sharing.config.cooldown, One(step.refresh && kept));
      }
    }
  }

  /** Takes one failure. */
  method TakeFailure(c: Cache, step: Step)
    requires c.Valid() && step.Failure? && step.Given()
    requires forall j :: 0 <= j < |c.shards| ==> c.shards[j].past.latest <= step.at
    modifies c.shards
    ensures c.Valid()
    ensures forall j :: 0 <= j < |c.shards| ==>
      Stepped(old(c.shards[j].past), c.shards[j].past, c.shards[j].sharing.records, 0)
    ensures forall j :: 0 <= j < |c.shards| ==> c.shards[j].past.latest <= step.at
  {
    hide Shard.Valid, Dealt, Failing, FreshAnswer, Epoch, Shard.View, Used, Stepped, Cache.Route, IsFailure, Frugal,
      SpareFailing, Retained;
    var d := c.AdmitFailure(step.key, step.response, step.wire, step.scope, step.charge, step.ttl, step.failure,
                            step.at,
                            step.work);
    var i := c.Route(step.key);
    var s := c.shards[i];
    forall j | 0 <= j < |c.shards|
      ensures Stepped(old(c.shards[j].past), c.shards[j].past, c.shards[j].sharing.records, 0)
    {
      ghost var lifetime := Min(step.ttl, s.policy.For(step.key).negativeCap);
      if j == i && !s.policy.For(step.key).bypass && IsFailure(step.response) && lifetime > 0 && step.work == c.epoch {
        FailureGrows(old(s.past), s.past, FailureEntry(old(s.clock) + 1, step.key, step.wire, step.scope, step.at, lifetime,
                                                       step.failure, step.charge), d);
      }
      Idle(old(c.shards[j].past), c.shards[j].past, c.shards[j].sharing.records);
    }
  }

  /** Takes one step of any kind. */
  method Take(c: Cache, step: Step, ghost floor: nat) returns (kept: bool)
    requires c.Valid() && step.Given() && (step.Timed() ==> floor <= step.at)
    requires forall j :: 0 <= j < |c.shards| ==> c.shards[j].past.latest <= floor
    modifies c, c.shards, Tables(c.shards)
    ensures c.Valid() && c.shards != []
    ensures forall j :: 0 <= j < |c.shards| ==>
      Stepped(old(c.shards[j].past), c.shards[j].past, c.shards[j].sharing.records, RefreshOf(c, step, kept, j))
    ensures forall j :: 0 <= j < |c.shards| ==> c.shards[j].past.latest <= (if step.Timed() then step.at else floor)
  {
    hide Shard.Valid, Dealt, Epoch, Stepped, Looked, Shard.View, Released, Forget, MatchingIn, Cache.Route, Cleared;
    kept := false;
    match step {
      case Answer(_, _, _, _, _, _, _, _) =>
        kept := TakeAnswer(c, step);
        return;
      case Failure(_, _, _, _, _, _, _, _, _) =>
        TakeFailure(c, step);
        return;
      case Query(key, outgoing, at, allowStale, observe) =>
        var _ := c.Lookup(key, outgoing, at, allowStale, observe);
      case Drop(shard, entry) =>
        if shard < |c.shards| && entry in c.shards[shard].uses.readers {
          c.Release(shard, entry);
        }
      case Invalidation(filter) =>
        var _ := c.Invalidate(filter);
        AllCleared(c, old(PastsOf(c.shards)), filter, floor);
        return;
    }
    forall j | 0 <= j < |c.shards|
      ensures Stepped(old(c.shards[j].past), c.shards[j].past, c.shards[j].sharing.records, 0)
    {
      Idle(old(c.shards[j].past), c.shards[j].past, c.shards[j].sharing.records);
    }
  }

  lemma AllCleared(c: Cache, before: seq<Past>, filter: Filter, floor: nat)
    requires |before| == |c.shards| && forall j :: 0 <= j < |before| ==> before[j].latest <= floor
    requires forall j :: 0 <= j < |c.shards| ==> Cleared(before[j], c.shards[j].past, c.shards[j].sharing.records,
                                                         filter)
    ensures forall j :: 0 <= j < |c.shards| ==> Stepped(before[j], c.shards[j].past, c.shards[j].sharing.records, 0)
    ensures forall j :: 0 <= j < |c.shards| ==> c.shards[j].past.latest <= floor
  {
    hide Stepped, NextCooling;
    forall j | 0 <= j < |c.shards| ensures Stepped(before[j], c.shards[j].past, c.shards[j].sharing.records, 0) {
      CooledStep(before[j], c.shards[j].past, c.shards[j].sharing.records, None, false, 0, 0, 0);
    }
  }

  /** How far a run got in one shard: `stayed` are the classes whose records were
      there after every step. */
  ghost predicate Got(before: Past, p: Past, stayed: set<Class>, refreshes: nat) {
    && p.recency == before.recency && p.restored == before.restored
    && p.refreshAdmitted == before.refreshAdmitted + refreshes
    && before.log <= p.log
    && Remembered(before.cooling, p.cooling, stayed)
  }

  lemma GotOn(before: Past, p: Past, p': Past, records: map<Class, Phase>, stayed: set<Class>, n: nat, m: nat)
    requires Got(before, p, stayed, n) && Stepped(p, p', records, m)
    ensures Got(before, p', stayed * records.Keys, n + m)
  {
  }

  /** What a run leaves of a shard, told to whoever looks at it: its lists follow the
      order of use, every refresh it stored is settled once or waits, and no
      revocation was disregarded before its cooldown ended while the record stayed. */
  ghost predicate Sound(s: Shard, before: Past, stayed: set<Class>, refreshes: nat)
    reads s
  {
    && |s.parts| == 2
    && (before.recency ==> Recent(s.parts, s.uses.accessed))
    && before.refreshAdmitted + refreshes == s.tally.refreshUseful + s.tally.refreshUnused + |s.uses.refreshed|
    && s.uses.refreshed <= s.past.resident
    && before.log <= s.past.log
    && forall c, k :: c in before.cooling && c in stayed && 0 <= k < |before.cooling[c]| ==>
         Spared(s.past.log, c, before.cooling[c][k])
  }

  lemma GotIsSound(s: Shard, before: Past, stayed: set<Class>, refreshes: nat)
    requires s.Valid() && Got(before, s.past, stayed, refreshes)
    ensures Sound(s, before, stayed, refreshes)
  {
    hide Shard.Valid, Spared, Ordered;
    s.WithinBudgets();
    s.RefreshesSettleOnce();
    if before.recency {
      s.ListsFollowUse();
      assert Recent(s.parts, s.uses.accessed);
    }
    forall c, k | c in before.cooling && c in stayed && 0 <= k < |before.cooling[c]|
      ensures Spared(s.past.log, c, before.cooling[c][k])
    {
      assert s.past.cooling[c][k] == before.cooling[c][k];
      EachSpared(s, c, k);
    }
  }

  lemma EachSpared(s: Shard, c: Class, k: nat)
    requires s.Valid() && c in s.past.cooling && k < |s.past.cooling[c]|
    ensures Spared(s.past.log, c, s.past.cooling[c][k])
  {
    hide Good, Partitioned, Current, RevocationHolds, Filters, Spared;
    assert Heeded(s.past.log, s.past.latest, s.past.cooling[c], c, s.sharing.records[c]);
  }

  /** How far a run got in every shard. */
  ghost predicate AllGot(c: Cache, before: seq<Past>, stayed: seq<set<Class>>, steps: seq<Step>, kept: seq<bool>)
    reads c.shards
  {
    && |kept| == |steps|
    && |before| == |stayed| == |c.shards| > 0
    && forall j :: 0 <= j < |c.shards| ==> Got(before[j], c.shards[j].past, stayed[j], Refreshes(c, steps, kept, j))
  }

  /** Takes step `i` of a run. */
  method Onward(c: Cache, steps: seq<Step>, i: nat, kept: seq<bool>, ghost clock: nat, ghost before: seq<Past>,
                ghost stayed: seq<set<Class>>)
    returns (k: bool, ghost narrow: seq<set<Class>>)
    requires c.Valid() && i < |steps| && steps[i].Given() && (steps[i].Timed() ==> clock <= steps[i].at)
    requires forall j :: 0 <= j < |c.shards| ==> c.shards[j].past.latest <= clock
    requires AllGot(c, before, stayed, steps[..i], kept)
    modifies c, c.shards, Tables(c.shards)
    ensures c.Valid() && AllGot(c, before, narrow, steps[..i + 1], kept + [k])
    ensures forall j :: 0 <= j < |c.shards| ==>
      c.shards[j].past.latest <= (if steps[i].Timed() then steps[i].at else clock)
  {
    hide Cache.Valid, Stepped, Got, RefreshOf, Shard.View;
    ghost var pasts := PastsOf(c.shards);
    k := Take(c, steps[i], clock);
    assert steps[..i + 1][..i] == steps[..i] && (kept + [k])[..i] == kept;
    narrow := Narrowed(c.shards, stayed);
    forall j | 0 <= j < |c.shards|
      ensures Got(before[j], c.shards[j].past, narrow[j], Refreshes(c, steps[..i + 1], kept + [k], j))
    {
      GotOn(before[j], pasts[j], c.shards[j].past, c.shards[j].sharing.records, stayed[j],
            Refreshes(c, steps[..i], kept, j), RefreshOf(c, steps[i], k, j));
    }
  }

  /** Any run of answers, failures, lookups, dropped handles and invalidations, in
      order of time, keeps the whole cache valid and every shard sound. */
  method Run(c: Cache, steps: seq<Step>, ghost floor: nat) returns (kept: seq<bool>, ghost stayed: seq<set<Class>>)
    requires c.Valid() && Timely(steps, floor)
    requires forall j :: 0 <= j < |c.shards| ==> c.shards[j].past.latest <= floor
    modifies c, c.shards, Tables(c.shards)
    ensures c.Valid() && c.shards != [] && |kept| == |steps| && |stayed| == |c.shards|
    ensures forall j :: 0 <= j < |c.shards| ==>
      Sound(c.shards[j], old(c.shards[j].past), stayed[j], Refreshes(c, steps, kept, j))
  {
    hide Cache.Valid, Got, Sound, Shard.View;
    ghost var before := PastsOf(c.shards);
    kept := [];
    stayed := Start(c, before);
    ghost var clock: nat := floor;
    for i := 0 to |steps|
      invariant c.Valid() && AllGot(c, before, stayed, steps[..i], kept)
      invariant forall k :: i <= k < |steps| && steps[k].Timed() ==> clock <= steps[k].at
      invariant forall j :: 0 <= j < |c.shards| ==> c.shards[j].past.latest <= clock
    {
      var k;
      k, stayed := Onward(c, steps, i, kept, clock, before, stayed);
      clock := if steps[i].Timed() then steps[i].at else clock;
      kept := kept + [k];
    }
    assert steps[..|steps|] == steps;
    AllSound(c, before, stayed, steps, kept);
  }

  lemma Start(c: Cache, before: seq<Past>) returns (stayed: seq<set<Class>>)
    requires c.Valid() && before == PastsOf(c.shards)
    ensures AllGot(c, before, stayed, [], [])
  {
    hide Shard.Valid, Dealt, Got;
    stayed := seq(|before|, j requires 0 <= j < |before| => before[j].cooling.Keys);
    forall j | 0 <= j < |c.shards| ensures Got(before[j], c.shards[j].past, stayed[j], 0) {
      GotNothing(before[j], stayed[j]);
    }
  }

  lemma AllSound(c: Cache, before: seq<Past>, stayed: seq<set<Class>>, steps: seq<Step>, kept: seq<bool>)
    requires c.Valid() && AllGot(c, before, stayed, steps, kept)
    ensures forall j :: 0 <= j < |c.shards| ==> Sound(c.shards[j], before[j], stayed[j], Refreshes(c, steps, kept, j))
  {
    hide Shard.Valid, Dealt, Epoch, Got, Sound;
    forall j | 0 <= j < |c.shards|
      ensures Sound(c.shards[j], before[j], stayed[j], Refreshes(c, steps, kept, j))
    {
      assert Joined(c.shards[j], c.epoch);
      GotIsSound(c.shards[j], before[j], stayed[j], Refreshes(c, steps, kept, j));
    }
  }

  lemma GotNothing(p: Past, stayed: set<Class>)
    ensures Got(p, p, stayed, 0)
  {
  }

  /** The classes of `stayed` whose records are there now. */
  ghost function Narrowed(shards: seq<Shard>, stayed: seq<set<Class>>): (r: seq<set<Class>>)
    requires |stayed| == |shards|
    reads shards, Tables(shards)
    ensures |r| == |shards| && forall j :: 0 <= j < |shards| ==> r[j] == stayed[j] * shards[j].sharing.records.Keys
  {
    seq(|shards|, j requires 0 <= j < |shards| reads shards, Tables(shards) => stayed[j] * shards[j].sharing.records.Keys)
  }
}
