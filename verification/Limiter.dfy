/** Per-source admission budgets kept in a bounded, reclaimable table. */
module Limiter {
  import opened Wrappers
  import opened Networks
  import opened Sequences

  const TOKEN: nat := 1_000_000_000
  const RECLAIM_SCAN: nat := 16

  datatype Settings = Settings(
    enabled: bool,
    rate: nat,
    burst: nat,
    maxSources: nat,
    ipv4Prefix: nat,
    ipv6Prefix: nat,
    maxInflight: nat,
    maxConnections: nat)

  predicate ValidSettings(s: Settings) {
    && 1 <= s.rate <= 1_000_000
    && 1 <= s.burst <= 1_000_000
    && 1 <= s.maxSources <= 65_536
    && 1 <= s.maxInflight <= 65_536
    && 1 <= s.maxConnections <= 65_536
    && s.ipv4Prefix <= 32
    && s.ipv6Prefix <= 128
  }

  datatype Kind = Query | Connection

  datatype Outcome = Granted | Rate | Inflight | Connections | TableFull

  datatype Bucket = Bucket(credit: nat, updated: nat, queries: nat, connections: nat)

  /** The owner of a budget: the peer's subnet. */
  function SourceOf(s: Settings, peer: Address): RawNet
    requires ValidSettings(s)
  {
    var client := CanonicalPeer(peer);
    Trunc(Net(client, if IsIpv4(client) then s.ipv4Prefix else s.ipv6Prefix))
  }

  function Cap(s: Settings): nat {
    s.burst * TOKEN
  }

  /** Credit after `elapsed` nanoseconds of refilling. */
  function Refilled(s: Settings, credit: int, elapsed: nat): int {
    Min(Cap(s), credit + elapsed * s.rate)
  }

  /** A bucket brought up to `now`; an older time leaves it as it is. */
  function Refill(s: Settings, b: Bucket, now: nat): Bucket {
    if now > b.updated then
      ProductNotNegative(now - b.updated, s.rate);
      b.(credit := Refilled(s, b.credit, now - b.updated), updated := now)
    else b
  }

  predicate Reclaimable(s: Settings, b: Bucket) {
    b.queries == 0 && b.connections == 0 && b.credit == Cap(s)
  }

  /** The credit of a source at time `t`; a source outside the table is full. */
  function Level(s: Settings, entries: map<RawNet, Bucket>, source: RawNet, t: nat): int {
    if source in entries && entries[source].updated <= t
    then Refilled(s, entries[source].credit, t - entries[source].updated)
    else Cap(s)
  }

  /** One admitted query. */
  datatype Grant = Grant(source: RawNet, at: nat)

  /** The reference: an unbounded table that never forgets a source.  The level
      of a source follows from the whole history of its admitted queries. */
  ghost function Reference(s: Settings, log: seq<Grant>, source: RawNet, t: nat): int {
    if log == [] then Cap(s)
    else
      var rest, last := log[..|log| - 1], log[|log| - 1];
      if last.source == source && last.at <= t
      then Refilled(s, Reference(s, rest, source, last.at) - TOKEN, t - last.at)
      else Reference(s, rest, source, t)
  }

  lemma Distribute(r: int, a: int, b: int)
    ensures a * r + b * r == (a + b) * r
  {
  }

  lemma ProductNotNegative(a: nat, b: nat)
    ensures a * b >= 0
  {
  }

  /** A peer that maps an IPv4 address into IPv6: eighty zeros, sixteen ones and
      the address. */
  function Mapped(v4: Address): Address
    requires IsIpv4(v4)
  {
    seq(80, _ => false) + seq(16, _ => true) + v4
  }

  /** A mapped peer is the IPv4 client; every other peer is itself. */
  lemma MappedIsIpv4(v4: Address, peer: Address)
    requires IsIpv4(v4)
    ensures CanonicalPeer(Mapped(v4)) == v4 && CanonicalPeer(v4) == v4
    ensures CanonicalPeer(peer) == peer || (IsIpv4(CanonicalPeer(peer)) && peer == Mapped(CanonicalPeer(peer)))
  {
    assert Mapped(v4)[96..] == v4;
    if CanonicalPeer(peer) != peer {
      assert peer == Mapped(CanonicalPeer(peer));
    }
  }

  /** Two peers have one budget exactly if they are clients of one family with the
      same first bits, as many as the family's prefix has. */
  lemma OneBudget(s: Settings, a: Address, b: Address)
    requires ValidSettings(s)
    ensures SourceOf(s, a) == SourceOf(s, b) <==>
      var x, y := CanonicalPeer(a), CanonicalPeer(b);
      |x| == |y| && forall i :: 0 <= i < (if |x| == 32 then s.ipv4Prefix else s.ipv6Prefix) && i < |x| ==> x[i] == y[i]
  {
    var x, y := CanonicalPeer(a), CanonicalPeer(b);
    var n, m := SourceOf(s, a), SourceOf(s, b);
    assert Contains(n, x) && Contains(m, y);
    if n == m {
      assert forall i :: 0 <= i < n.prefix ==> x[..n.prefix][i] == y[..n.prefix][i];
    } else if |x| == |y| && x[..n.prefix] == y[..n.prefix] {
      TruncedSame(n, m, x);
    } else if |x| == |y| {
      var i :| 0 <= i < n.prefix && x[..n.prefix][i] != y[..n.prefix][i];
      assert x[i] != y[i];
    }
  }

  /** Refilling in two steps is refilling in one. */
  lemma RefillTwice(s: Settings, credit: int, a: nat, b: nat)
    ensures Refilled(s, Refilled(s, credit, a), b) == Refilled(s, credit, a + b)
  {
    Distribute(s.rate, a, b);
    ProductNotNegative(b, s.rate);
  }

  lemma RefillKeepsLevel(s: Settings, b: Bucket, now: nat, t: nat)
    requires b.updated <= now <= t
    ensures var r := Refill(s, b, now);
      && r.updated == now && r.credit == Refilled(s, b.credit, now - b.updated) <= Cap(s)
      && Refilled(s, r.credit, t - r.updated) == Refilled(s, b.credit, t - b.updated)
    requires b.credit <= Cap(s)
  {
    RefillTwice(s, b.credit, now - b.updated, t - now);
    ProductNotNegative(now - b.updated, s.rate);
  }

  /** Times never decrease, and every grant found a whole token. */
  ghost predicate WellFormed(s: Settings, log: seq<Grant>) {
    log != [] ==>
      var rest, last := log[..|log| - 1], log[|log| - 1];
      && WellFormed(s, rest)
      && (rest != [] ==> rest[|rest| - 1].at <= last.at)
      && TOKEN <= Reference(s, rest, last.source, last.at)
  }

  /** Queries of `source` admitted in the closed window from `from` to `to`. */
  ghost function Admitted(log: seq<Grant>, source: RawNet, from: nat, to: nat): nat {
    if log == [] then 0
    else
      var last := log[|log| - 1];
      Admitted(log[..|log| - 1], source, from, to)
      + (if last.source == source && from <= last.at <= to then 1 else 0)
  }

  ghost predicate UpTo(log: seq<Grant>, t: nat) {
    log != [] ==> log[|log| - 1].at <= t
  }

  lemma {:induction false} ReferenceBounds(s: Settings, log: seq<Grant>, source: RawNet, t: nat)
    requires WellFormed(s, log) && UpTo(log, t)
    ensures 0 <= Reference(s, log, source, t) <= Cap(s)
  {
    if log != [] {
      var rest, last := log[..|log| - 1], log[|log| - 1];
      ReferenceBounds(s, rest, source, last.at);
      ReferenceBounds(s, rest, source, t);
      ProductNotNegative(t - last.at, s.rate);
    }
  }

  /** Between two admitted queries a level rises by exactly the rate, up to the
      burst: `rate` whole queries a second. */
  lemma {:induction false} LevelRises(s: Settings, log: seq<Grant>, source: RawNet, from: nat, to: nat)
    requires from <= to
    requires forall i :: 0 <= i < |log| && log[i].source == source ==> log[i].at <= from || to < log[i].at
    ensures Reference(s, log, source, to) ==
      Min(s.burst * 1_000_000_000, Reference(s, log, source, from) + (to - from) * s.rate)
  {
    if log == [] {
      ProductNotNegative(to - from, s.rate);
    } else {
      var rest, last := log[..|log| - 1], log[|log| - 1];
      if last.source == source && last.at <= from {
        RefillTwice(s, Reference(s, rest, source, last.at) - TOKEN, from - last.at, to - from);
        assert from - last.at + (to - from) == to - last.at;
      } else {
        LevelRises(s, rest, source, from, to);
      }
    }
  }

  /** An admitted query costs its source exactly one query, and no other. */
  lemma QueryCostsOne(s: Settings, log: seq<Grant>, source: RawNet, at: nat, other: RawNet)
    requires WellFormed(s, log) && UpTo(log, at) && other != source
    ensures Reference(s, log + [Grant(source, at)], source, at) == Reference(s, log, source, at) - 1_000_000_000
    ensures Reference(s, log + [Grant(source, at)], other, at) == Reference(s, log, other, at)
  {
    ReferenceBounds(s, log, source, at);
    assert (log + [Grant(source, at)])[..|log|] == log;
  }

  lemma {:induction false} NoneAdmittedYet(s: Settings, log: seq<Grant>, source: RawNet, from: nat, to: nat)
    requires WellFormed(s, log) && (log != [] ==> log[|log| - 1].at < from)
    ensures Admitted(log, source, from, to) == 0
  {
    if log != [] {
      NoneAdmittedYet(s, log[..|log| - 1], source, from, to);
    }
  }

  /** Credit plus what the window admitted never exceeds a full bucket plus what
      the window refilled. */
  lemma {:induction false} CreditConservation(s: Settings, log: seq<Grant>, source: RawNet, from: nat, t: nat)
    requires WellFormed(s, log) && UpTo(log, t) && from <= t
    ensures Reference(s, log, source, t) + Admitted(log, source, from, t) * TOKEN
         <= Cap(s) + (t - from) * s.rate
  {
    ProductNotNegative(t - from, s.rate);
    ReferenceBounds(s, log, source, t);
    if log == [] || log[|log| - 1].at < from {
      NoneAdmittedYet(s, log, source, from, t);
    } else {
      var rest, last := log[..|log| - 1], log[|log| - 1];
      WindowCloses(s, rest, source, from, last.at, t);
      if last.source == source {
        CreditConservation(s, rest, source, from, last.at);
        Distribute(s.rate, last.at - from, t - last.at);
      } else {
        CreditConservation(s, rest, source, from, t);
      }
    }
  }

  lemma {:induction false} WindowCloses(s: Settings, log: seq<Grant>, source: RawNet, from: nat, mid: nat, to: nat)
    requires WellFormed(s, log) && UpTo(log, mid) && mid <= to
    ensures Admitted(log, source, from, mid) == Admitted(log, source, from, to)
  {
    if log != [] {
      WindowCloses(s, log[..|log| - 1], source, from, mid, to);
    }
  }

  /** The rate bound.  In every window of time every source is admitted at most
      the burst plus the rate times the window, however often its entry was
      reclaimed and made again in between. */
  lemma {:induction false} RateBound(s: Settings, log: seq<Grant>, source: RawNet, from: nat, to: nat)
    requires WellFormed(s, log) && from <= to
    ensures Admitted(log, source, from, to) * TOKEN <= s.burst * TOKEN + (to - from) * s.rate
  {
    if UpTo(log, to) {
      CreditConservation(s, log, source, from, to);
      ReferenceBounds(s, log, source, to);
    } else {
      RateBound(s, log[..|log| - 1], source, from, to);
    }
  }

  /** The sweep queue is a permutation of the table's keys. */
  ghost predicate Indexed(entries: map<RawNet, Bucket>, sweep: seq<RawNet>) {
    && NoDuplicates(sweep)
    && (forall x :: x in sweep <==> x in entries)
  }

  function Live(entries: map<RawNet, Bucket>, source: RawNet, kind: Kind): nat {
    if source !in entries then 0
    else if kind == Query then entries[source].queries
    else entries[source].connections
  }

  /** Every counter is the number of live permits. */
  ghost predicate Counted(entries: map<RawNet, Bucket>, permits: multiset<(RawNet, Kind)>) {
    forall source, kind :: permits[(source, kind)] == Live(entries, source, kind)
  }

  ghost predicate Filled(s: Settings, entries: map<RawNet, Bucket>) {
    forall x :: x in entries ==> entries[x].credit <= Cap(s)
  }

  ghost predicate NotAhead(entries: map<RawNet, Bucket>, latest: nat) {
    forall x :: x in entries ==> entries[x].updated <= latest
  }

  /** The bounded table shows the levels of the unbounded one. */
  ghost predicate Refines(s: Settings, entries: map<RawNet, Bucket>, log: seq<Grant>, latest: nat) {
    forall source, t :: latest <= t ==> Level(s, entries, source, t) == Reference(s, log, source, t)
  }

  /** Some entries of a table were brought up to date, others dropped. */
  ghost predicate Swept(s: Settings, before: map<RawNet, Bucket>, after: map<RawNet, Bucket>, now: nat) {
    && (forall x :: x in after ==>
          x in before && (after[x] == before[x] || after[x] == Refill(s, before[x], now)))
    && (forall x :: x in before && x !in after ==> Reclaimable(s, Refill(s, before[x], now)))
  }

  lemma FullStaysFull(s: Settings, elapsed: nat)
    ensures Refilled(s, Cap(s), elapsed) == Cap(s)
  {
    ProductNotNegative(elapsed, s.rate);
  }

  /** Neither refilling nor reclaiming a full idle entry changes any level. */
  lemma SweptKeepsLevel(s: Settings, before: map<RawNet, Bucket>, after: map<RawNet, Bucket>, now: nat, x: RawNet,
                        t: nat)
    requires Swept(s, before, after, now) && Filled(s, before) && NotAhead(before, now) && now <= t
    ensures Level(s, after, x, t) == Level(s, before, x, t)
  {
    if x in before {
      RefillKeepsLevel(s, before[x], now, t);
      FullStaysFull(s, t - now);
    }
  }

  lemma SweptFacts(s: Settings, before: map<RawNet, Bucket>, after: map<RawNet, Bucket>, now: nat,
                   permits: multiset<(RawNet, Kind)>)
    requires Swept(s, before, after, now) && Filled(s, before) && Counted(before, permits)
    ensures Filled(s, after) && Counted(after, permits)
    ensures NotAhead(before, now) ==> NotAhead(after, now)
  {
    forall x | x in before
      ensures Refill(s, before[x], now).credit <= Cap(s)
      ensures before[x].updated <= now ==> Refill(s, before[x], now).updated <= now
    {
    }
    forall source, kind
      ensures permits[(source, kind)] == Live(after, source, kind)
    {
    }
  }

  /** A sweep that finds nothing turns the queue by the entries it looked at. */
  function Turned(q: seq<RawNet>, k: nat): seq<RawNet>
    requires k <= |q|
  {
    q[k..] + q[..k]
  }

  function ScanLength(q: seq<RawNet>): (k: nat)
    ensures k <= |q|
  {
    if |q| < RECLAIM_SCAN then |q| else RECLAIM_SCAN
  }

  class Limiter {
    const settings: Settings
    var entries: map<RawNet, Bucket>
    var sweep: seq<RawNet>
    ghost var permits: multiset<(RawNet, Kind)>
    ghost var log: seq<Grant>
    ghost var latest: nat
    ghost var ordered: bool
    /** The newcomers that were refused since one last got past a full table. */
    ghost var refusals: seq<Attempt>

    /** Table integrity holds for every caller; the reference holds while
        timestamps have not decreased in lock order. */
    ghost predicate Valid()
      reads this
    {
      && ValidSettings(settings)
      && Indexed(entries, sweep)
      && |entries| <= settings.maxSources
      && Counted(entries, permits)
      && Filled(settings, entries)
      && InTurn(settings, refusals, sweep)
      && (ordered ==>
            && NotAhead(entries, latest)
            && Refines(settings, entries, log, latest)
            && WellFormed(settings, log)
            && UpTo(log, latest))
    }

    constructor (settings: Settings)
      requires ValidSettings(settings)
      ensures Valid()
      ensures this.settings == settings && ordered && permits == multiset{} && log == [] && latest == 0
      ensures refusals == [] && entries == map[] && sweep == []
    {
      this.settings := settings;
      entries := map[];
      sweep := [];
      permits := multiset{};
      log := [];
      latest := 0;
      ordered := true;
      refusals := [];
    }

    /** Looks at the next entries of the queue for one that can be dropped. */
    method Reclaim(now: nat)
      requires Indexed(entries, sweep) && Filled(settings, entries)
      modifies this`entries, this`sweep
      ensures Indexed(entries, sweep)
      ensures Swept(settings, old(entries), entries, now)
      ensures entries.Keys <= old(entries).Keys
      ensures |entries| == |old(entries)| ==>
        && sweep == Turned(old(sweep), ScanLength(old(sweep)))
        && forall x :: x in old(sweep)[..ScanLength(old(sweep))] ==>
             x in old(entries) && !Reclaimable(settings, Refill(settings, old(entries)[x], now))
      ensures |entries| == |old(entries)| || |entries| == |old(entries)| - 1
    {
      ghost var q, before := sweep, entries;
      for i := 0 to ScanLength(sweep)
        invariant q == old(sweep) && before == old(entries)
        invariant sweep == Turned(q, i)
        invariant Scanning(settings, before, entries, q, i, now)
      {
        var candidate := sweep[0];
        sweep := sweep[1..];
        TurnOne(q, i);
        ScanOne(settings, before, entries, q, i, now);
        var entry := Refill(settings, entries[candidate], now);
        entries := entries[candidate := entry];
        if Reclaimable(settings, entry) {
          entries := entries - {candidate};
          DropKeepsIndex(before, q, i, entries, sweep);
          return;
        }
        sweep := sweep + [candidate];
      }
      TurnKeepsIndex(before, q, ScanLength(q), entries);
    }

    /** Finds or makes the entry of `source`; a full table may refuse it. */
    method Open(source: RawNet, now: nat) returns (ok: bool)
      requires Valid() && (ordered ==> latest <= now)
      modifies this`entries, this`sweep
      ensures Indexed(entries, sweep) && |entries| <= settings.maxSources
      ensures Counted(entries, permits) && Filled(settings, entries)
      ensures ordered ==> NotAhead(entries, now) && Refines(settings, entries, log, now)
      ensures ok <==> source in entries
      ensures source in old(entries) ==> entries == old(entries) && sweep == old(sweep)
      ensures !ok ==> Refused(settings, old(entries), old(sweep), sweep, source, now)
    {
      hide Refines, Counted, Indexed, Filled, NotAhead, WellFormed, Reference, Level, Refill, InTurn;
      if ordered {
        Later(settings, entries, log, latest, now);
      }
      if source !in entries {
        if |entries| == settings.maxSources {
          Reclaim(now);
          SweptFacts(settings, old(entries), entries, now, permits);
          if ordered {
            SweptRefines(settings, old(entries), entries, log, latest, now);
          }
          if |entries| == settings.maxSources {
            return false;
          }
        }
        InsertFacts(settings, entries, sweep, permits, log, source, now);
        entries := entries[source := Bucket(Cap(settings), now, 0, 0)];
        sweep := sweep + [source];
      }
      ok := true;
    }

    /** One admission under the lock. */
    method Acquire(peer: Address, kind: Kind, now: nat) returns (outcome: Outcome, owner: Option<(RawNet, Kind)>)
      requires Valid()
      modifies this
      ensures Valid()
      ensures ordered == (old(ordered) && (settings.enabled ==> old(latest) <= now))
      ensures latest == if settings.enabled then Max(old(latest), now) else old(latest)
      ensures owner.Some? <==> settings.enabled && outcome == Granted
      ensures owner.Some? ==> owner.value == (SourceOf(settings, peer), kind)
      ensures permits == old(permits) + (if owner.Some? then multiset{owner.value} else multiset{})
      ensures log == old(log) +
        (if owner == Some((SourceOf(settings, peer), Query)) then [Grant(owner.value.0, now)] else [])
      ensures !settings.enabled ==> outcome == Granted && entries == old(entries) && sweep == old(sweep)
      ensures SourceOf(settings, peer) in old(entries) ==> sweep == old(sweep)
      ensures refusals ==
        if !settings.enabled || SourceOf(settings, peer) in old(entries) then old(refusals)
        else if outcome == TableFull then old(refusals) + [Attempt(old(entries), old(sweep), SourceOf(settings, peer),
                                                                   now)]
        else []
      ensures settings.enabled ==>
        var source := SourceOf(settings, peer);
        && (outcome == TableFull ==> Refused(settings, old(entries), old(sweep), sweep, source, now))
        && (outcome != TableFull && kind == Connection ==>
              outcome == if old(permits)[(source, kind)] >= settings.maxConnections then Connections else Granted)
        && (outcome != TableFull && kind == Query && ordered ==>
              outcome ==
                if old(permits)[(source, kind)] >= settings.maxInflight then Inflight
                else if Reference(settings, old(log), source, now) < TOKEN then Rate
                else Granted)
    {
      hide Refines, Counted, Indexed, Filled, NotAhead, WellFormed, Reference, Level, Refill, Refused, SourceOf,
        ValidSettings, InTurn;
      if !settings.enabled {
        return Granted, None;
      }
      var source := SourceOf(settings, peer);
      var ok := Enter(source, now);
      if !ok {
        return TableFull, None;
      }
      outcome := Charge(source, kind, now);
      owner := if outcome == Granted then Some((source, kind)) else None;
    }

    /** Finds or makes the entry of `source`, and keeps account of the newcomers
        that a full table refused. */
    method Enter(source: RawNet, now: nat) returns (ok: bool)
      requires Valid()
      modifies this`entries, this`sweep, this`latest, this`ordered, this`refusals
      ensures Valid()
      ensures ordered == (old(ordered) && old(latest) <= now) && latest == Max(old(latest), now)
      ensures ok <==> source in entries
      ensures source in old(entries) ==> sweep == old(sweep)
      ensures !ok ==> Refused(settings, old(entries), old(sweep), sweep, source, now)
      ensures refusals ==
        if source in old(entries) then old(refusals)
        else if !ok then old(refusals) + [Attempt(old(entries), old(sweep), source, now)]
        else []
    {
      hide Refines, Counted, Indexed, Filled, NotAhead, WellFormed, Refused, ValidSettings, InTurn, UpTo;
      var before, queue := entries, sweep;
      if ordered && latest <= now {
        UpToLater(log, latest, now);
      }
      ordered := ordered && latest <= now;
      ok := Open(source, now);
      latest := Max(latest, now);
      if !ok {
        NextRefusal(settings, refusals, before, queue, sweep, source, now);
        refusals := refusals + [Attempt(before, queue, source, now)];
      } else if source !in before {
        NoRefusal(settings, sweep);
        refusals := [];
      }
    }

    /** Spends from the entry of `source`. */
    method Charge(source: RawNet, kind: Kind, now: nat) returns (outcome: Outcome)
      requires Valid() && source in entries && (ordered ==> latest == now)
      modifies this`entries, this`permits, this`log
      ensures Valid()
      ensures sweep == old(sweep)
      ensures permits == old(permits) + (if outcome == Granted then multiset{(source, kind)} else multiset{})
      ensures log == old(log) + (if outcome == Granted && kind == Query then [Grant(source, now)] else [])
      ensures kind == Connection ==>
        outcome == if old(permits)[(source, kind)] >= settings.maxConnections then Connections else Granted
      ensures kind == Query ==> outcome in {Granted, Inflight, Rate}
      ensures kind == Query && ordered ==>
        outcome ==
          if old(permits)[(source, kind)] >= settings.maxInflight then Inflight
          else if Reference(settings, old(log), source, now) < TOKEN then Rate
          else Granted
    {
      hide Refines, Counted, Indexed, Filled, NotAhead, WellFormed, Reference, Level, Refill, InTurn;
      var entry := Refill(settings, entries[source], now);
      RefillOne(settings, entries, sweep, permits, log, source, now, ordered);
      entries := entries[source := entry];
      match kind {
        case Query =>
          if entry.queries >= settings.maxInflight {
            return Inflight;
          }
          if entry.credit < TOKEN {
            return Rate;
          }
          SpendFacts(settings, entries, sweep, permits, log, source, now, ordered);
          entries := entries[source := entry.(credit := entry.credit - TOKEN, queries := entry.queries + 1)];
          log := log + [Grant(source, now)];
        case Connection =>
          if entry.connections >= settings.maxConnections {
            return Connections;
          }
          ConnectFacts(settings, entries, sweep, permits, log, source, now, ordered);
          entries := entries[source := entry.(connections := entry.connections + 1)];
      }
      permits := permits + multiset{(source, kind)};
      return Granted;
    }

    /** A permit is dropped.  Its entry is always there to be counted down. */
    method Release(source: RawNet, kind: Kind)
      requires Valid() && (source, kind) in permits
      modifies this
      ensures Valid()
      ensures permits == old(permits) - multiset{(source, kind)}
      ensures log == old(log) && latest == old(latest) && ordered == old(ordered) && sweep == old(sweep)
      ensures refusals == old(refusals)
      ensures entries.Keys == old(entries).Keys
    {
      hide Refines, Counted, Indexed, Filled, NotAhead, WellFormed, Reference, Level, InTurn;
      ReleaseFacts(settings, entries, sweep, permits, log, latest, source, kind);
      var entry := entries[source];
      entries := entries[source := if kind == Query then entry.(queries := entry.queries - 1)
                                   else entry.(connections := entry.connections - 1)];
      permits := permits - multiset{(source, kind)};
    }

    /** What every run in which time does not go back keeps. */
    lemma WithinRate(source: RawNet, from: nat, to: nat)
      requires Valid() && ordered && from <= to
      ensures Admitted(log, source, from, to) * TOKEN <= settings.burst * TOKEN + (to - from) * settings.rate
    {
      hide Refines, Counted, Indexed, Filled, NotAhead, WellFormed, Reference, Refill, Refused, InTurn, UpTo;
      RateBound(settings, log, source, from, to);
    }

    /** What may be dropped from the table: exactly the entries of sources that hold
        no permit and have their whole burst back. */
    lemma ReclaimableIsIdle(x: RawNet, now: nat)
      requires Valid() && ordered && x in entries && latest <= now
      ensures Reclaimable(settings, Refill(settings, entries[x], now)) <==>
        && (x, Query) !in permits && (x, Connection) !in permits
        && Reference(settings, log, x, now) == settings.burst * 1_000_000_000
    {
      hide Indexed, WellFormed, Reference, InTurn, UpTo;
      assert Level(settings, entries, x, now) == Reference(settings, log, x, now);
      assert permits[(x, Query)] == Live(entries, x, Query) && permits[(x, Connection)] == Live(entries, x, Connection);
    }

    /** Progress, over whole runs.  As many newcomers refused in a row as the table
        needs to be scanned once have looked at every entry: whatever entry the
        first of them met, at one of them it could not be dropped.  So if an entry
        stays reclaimable, one newcomer of every such row gets past. */
    lemma ReclaimableIsFound(first: nat, x: RawNet)
      requires Valid() && first < |refusals| && x in refusals[first].entries
      requires settings.maxSources <= RECLAIM_SCAN * (|refusals| - first)
      ensures exists k ::
        first <= k < |refusals| && x in refusals[k].entries
        && !Reclaimable(settings, Refill(settings, refusals[k].entries[x], refusals[k].now))
    {
      hide Refines, Counted, Indexed, Filled, NotAhead, WellFormed, Reference, Refill, Refused;
      var attempts := refusals[first..] + [Attempt(map[], sweep, x, 0)];
      forall k | 0 <= k < |attempts| - 1
        ensures Refused(settings, attempts[k].entries, attempts[k].sweep, attempts[k + 1].sweep, attempts[k].source,
                        attempts[k].now)
      {
        assert attempts[k] == refusals[first + k] && attempts[k + 1].sweep == SweepAfter(refusals, first + k, sweep);
      }
      assert attempts[0] == refusals[first];
      var k := EntryIsMet(settings, attempts, x);
      assert attempts[k] == refusals[first + k];
    }
  }

  /** A step of a run: a request arrives, or a permit is dropped if there is one. */
  datatype Step = Arrive(peer: Address, kind: Kind, at: nat) | Leave(source: RawNet, kind: Kind)

  /** No request of the run is older than `floor` or than an earlier one. */
  ghost predicate Timely(steps: seq<Step>, floor: nat) {
    && (forall i :: 0 <= i < |steps| && steps[i].Arrive? ==> floor <= steps[i].at)
    && (forall i, j :: 0 <= i < j < |steps| && steps[i].Arrive? && steps[j].Arrive? ==> steps[i].at <= steps[j].at)
  }

  /** The queries that the run was granted: each at its time, for its source. */
  ghost function GrantsOf(s: Settings, steps: seq<Step>, outcomes: seq<Outcome>): seq<Grant>
    requires |outcomes| == |steps| && ValidSettings(s)
  {
    if steps == [] then []
    else
      var n := |steps| - 1;
      var rest, step := GrantsOf(s, steps[..n], outcomes[..n]), steps[n];
      if s.enabled && step.Arrive? && step.kind == Query && outcomes[n] == Granted
      then rest + [Grant(SourceOf(s, step.peer), step.at)] else rest
  }

  /** The rate bound of a whole run from a new limiter: whatever requests come in
      order of time and whatever permits are dropped, no source is ever granted more
      than its burst and its rate in any window. */
  method Run(settings: Settings, steps: seq<Step>) returns (l: Limiter, outcomes: seq<Outcome>)
    requires ValidSettings(settings) && Timely(steps, 0)
    ensures l.Valid() && l.settings == settings && l.ordered
    ensures |outcomes| == |steps| && l.log == GrantsOf(settings, steps, outcomes)
    ensures forall source, from: nat, to: nat :: from <= to ==>
      Admitted(l.log, source, from, to) * TOKEN <= settings.burst * TOKEN + (to - from) * settings.rate
  {
    hide Limiter.Valid, ValidSettings, Admitted, SourceOf, Refused, Reference;
    l := new Limiter(settings);
    outcomes := [];
    for i := 0 to |steps|
      invariant fresh(l) && l.Valid() && l.ordered && l.settings == settings
      invariant |outcomes| == i && l.log == GrantsOf(settings, steps[..i], outcomes)
      invariant forall j :: i <= j < |steps| && steps[j].Arrive? ==> l.latest <= steps[j].at
    {
      assert steps[..i + 1][..i] == steps[..i];
      var outcome := Granted;
      match steps[i] {
        case Arrive(peer, kind, at) =>
          var owner;
          outcome, owner := l.Acquire(peer, kind, at);
        case Leave(source, kind) =>
          if source in l.entries && Live(l.entries, source, kind) > 0 {
            HasPermit(l, source, kind);
            l.Release(source, kind);
          }
      }
      assert (outcomes + [outcome])[..i] == outcomes;
      outcomes := outcomes + [outcome];
    }
    assert steps[..|steps|] == steps;
    forall source, from: nat, to: nat | from <= to
      ensures Admitted(l.log, source, from, to) * TOKEN <= settings.burst * TOKEN + (to - from) * settings.rate
    {
      l.WithinRate(source, from, to);
    }
  }

  lemma HasPermit(l: Limiter, source: RawNet, kind: Kind)
    requires l.Valid() && Live(l.entries, source, kind) > 0
    ensures (source, kind) in l.permits
  {
    hide Refines, Indexed, Filled, NotAhead, WellFormed, Reference, Refill, Refused, InTurn, UpTo;
    assert l.permits[(source, kind)] == Live(l.entries, source, kind);
  }

  /** The queue that refusal `k` left. */
  ghost function SweepAfter(refusals: seq<Attempt>, k: nat, sweep: seq<RawNet>): seq<RawNet>
    requires k < |refusals|
  {
    if k + 1 < |refusals| then refusals[k + 1].sweep else sweep
  }

  /** Each refusal left the queue to the next one, the last one to the limiter. */
  ghost predicate InTurn(s: Settings, refusals: seq<Attempt>, sweep: seq<RawNet>) {
    forall k :: 0 <= k < |refusals| ==>
      && Indexed(refusals[k].entries, refusals[k].sweep)
      && Refused(s, refusals[k].entries, refusals[k].sweep, SweepAfter(refusals, k, sweep), refusals[k].source,
                 refusals[k].now)
  }

  lemma NextRefusal(s: Settings, refusals: seq<Attempt>, entries: map<RawNet, Bucket>, before: seq<RawNet>,
                    after: seq<RawNet>,
                    source: RawNet, now: nat)
    requires InTurn(s, refusals, before) && Indexed(entries, before) && Refused(s, entries, before, after, source, now)
    ensures InTurn(s, refusals + [Attempt(entries, before, source, now)], after)
  {
    hide Refused, Indexed;
    var more := refusals + [Attempt(entries, before, source, now)];
    forall k | 0 <= k < |more|
      ensures Indexed(more[k].entries, more[k].sweep)
      ensures Refused(s, more[k].entries, more[k].sweep, SweepAfter(more, k, after), more[k].source, more[k].now)
    {
      if k < |refusals| {
        assert SweepAfter(more, k, after) == SweepAfter(refusals, k, before);
      }
    }
  }

  lemma UpToLater(log: seq<Grant>, latest: nat, now: nat)
    requires UpTo(log, latest) && latest <= now
    ensures UpTo(log, now)
  {
  }

  lemma NoRefusal(s: Settings, sweep: seq<RawNet>)
    ensures InTurn(s, [], sweep)
  {
  }

  /** A refused newcomer: the table is full and none of the entries the sweep
      looked at can be dropped; the next sweep starts behind them. */
  ghost predicate Refused(s: Settings, entries: map<RawNet, Bucket>, before: seq<RawNet>, after: seq<RawNet>,
                          source: RawNet, now: nat) {
    && source !in entries
    && |entries| == s.maxSources
    && after == Turned(before, ScanLength(before))
    && (forall x :: x in before[..ScanLength(before)] ==> x in entries && !Reclaimable(s, Refill(s, entries[x], now)))
  }

  lemma Later(s: Settings, entries: map<RawNet, Bucket>, log: seq<Grant>, latest: nat, now: nat)
    requires latest <= now && NotAhead(entries, latest) && Refines(s, entries, log, latest)
    ensures NotAhead(entries, now) && Refines(s, entries, log, now)
  {
  }

  lemma SweptRefines(s: Settings, before: map<RawNet, Bucket>, after: map<RawNet, Bucket>, log: seq<Grant>,
                     latest: nat, now: nat)
    requires Swept(s, before, after, now) && Filled(s, before) && NotAhead(before, now)
    requires latest <= now && Refines(s, before, log, latest)
    ensures Refines(s, after, log, now)
  {
    forall x, t | now <= t
      ensures Level(s, after, x, t) == Reference(s, log, x, t)
    {
      SweptKeepsLevel(s, before, after, now, x, t);
    }
  }

  lemma InsertFacts(s: Settings, entries: map<RawNet, Bucket>, sweep: seq<RawNet>, permits: multiset<(RawNet, Kind)>,
                    log: seq<Grant>, source: RawNet, now: nat)
    requires source !in entries && Indexed(entries, sweep) && Counted(entries, permits) && Filled(s, entries)
    ensures var after := entries[source := Bucket(Cap(s), now, 0, 0)];
      && Indexed(after, sweep + [source]) && |after| == |entries| + 1
      && Counted(after, permits) && Filled(s, after)
      && (NotAhead(entries, now) ==> NotAhead(after, now))
      && (Refines(s, entries, log, now) ==> Refines(s, after, log, now))
  {
    InsertIndexes(s, entries, sweep, permits, source, now);
    if Refines(s, entries, log, now) {
      InsertRefines(s, entries, log, source, now);
    }
  }

  lemma InsertRefines(s: Settings, entries: map<RawNet, Bucket>, log: seq<Grant>, source: RawNet, now: nat)
    requires source !in entries && Refines(s, entries, log, now)
    ensures Refines(s, entries[source := Bucket(Cap(s), now, 0, 0)], log, now)
  {
    hide Reference, Refilled, Cap;
    var after := entries[source := Bucket(Cap(s), now, 0, 0)];
    forall x, t | now <= t
      ensures Level(s, after, x, t) == Reference(s, log, x, t)
    {
      FullStaysFull(s, t - now);
      assert Level(s, after, x, t) == Level(s, entries, x, t);
    }
  }

  lemma InsertIndexes(s: Settings, entries: map<RawNet, Bucket>, sweep: seq<RawNet>,
                      permits: multiset<(RawNet, Kind)>, source: RawNet, now: nat)
    requires source !in entries && Indexed(entries, sweep) && Counted(entries, permits)
    ensures var after := entries[source := Bucket(Cap(s), now, 0, 0)];
      && Indexed(after, sweep + [source]) && |after| == |entries| + 1
      && Counted(after, permits)
  {
    var after := entries[source := Bucket(Cap(s), now, 0, 0)];
    assert after.Keys == entries.Keys + {source};
    forall x, kind
      ensures permits[(x, kind)] == Live(after, x, kind)
    {
      assert permits[(x, kind)] == Live(entries, x, kind);
    }
  }

  lemma UpdateKeepsIndex(entries: map<RawNet, Bucket>, sweep: seq<RawNet>, source: RawNet, entry: Bucket)
    requires source in entries && Indexed(entries, sweep)
    ensures Indexed(entries[source := entry], sweep) && |entries[source := entry]| == |entries|
  {
    assert entries[source := entry].Keys == entries.Keys;
  }

  lemma RefillOne(s: Settings, entries: map<RawNet, Bucket>, sweep: seq<RawNet>, permits: multiset<(RawNet, Kind)>,
                  log: seq<Grant>, source: RawNet, now: nat, ordered: bool)
    requires source in entries && Indexed(entries, sweep) && Counted(entries, permits) && Filled(s, entries)
    requires ordered ==> NotAhead(entries, now) && Refines(s, entries, log, now)
    ensures var entry := Refill(s, entries[source], now);
      var after := entries[source := entry];
      && Indexed(after, sweep) && |after| == |entries| && Counted(after, permits) && Filled(s, after)
      && entry.queries == permits[(source, Query)] && entry.connections == permits[(source, Connection)]
      && (ordered ==>
            && NotAhead(after, now) && Refines(s, after, log, now)
            && entry.updated == now && entry.credit == Reference(s, log, source, now))
  {
    var entry := Refill(s, entries[source], now);
    var after := entries[source := entry];
    assert permits[(source, Query)] == Live(after, source, Query);
    assert permits[(source, Connection)] == Live(after, source, Connection);
    UpdateKeepsIndex(entries, sweep, source, entry);
    SweptFacts(s, entries, after, now, permits);
    if ordered {
      SweptRefines(s, entries, after, log, now, now);
      RefillKeepsLevel(s, entries[source], now, now);
      assert Level(s, entries, source, now) == Reference(s, log, source, now);
    }
  }

  lemma SpendFacts(s: Settings, entries: map<RawNet, Bucket>, sweep: seq<RawNet>, permits: multiset<(RawNet, Kind)>,
                   log: seq<Grant>, source: RawNet, now: nat, ordered: bool)
    requires source in entries && Indexed(entries, sweep) && Counted(entries, permits) && Filled(s, entries)
    requires TOKEN <= entries[source].credit
    requires ordered ==>
      && NotAhead(entries, now) && Refines(s, entries, log, now) && WellFormed(s, log) && UpTo(log, now)
      && entries[source].updated == now && entries[source].credit == Reference(s, log, source, now)
    ensures var entry := entries[source];
      var after := entries[source := entry.(credit := entry.credit - TOKEN, queries := entry.queries + 1)];
      && Indexed(after, sweep) && |after| == |entries| && Filled(s, after)
      && Counted(after, permits + multiset{(source, Query)})
      && (ordered ==>
            var longer := log + [Grant(source, now)];
            NotAhead(after, now) && Refines(s, after, longer, now) && WellFormed(s, longer) && UpTo(longer, now))
  {
    hide Refines, WellFormed, Reference, Level, Counted, Indexed, Cap;
    var entry := entries[source];
    var after := entries[source := entry.(credit := entry.credit - TOKEN, queries := entry.queries + 1)];
    UpdateKeepsIndex(entries, sweep, source, after[source]);
    SpendCounts(entries, permits, source, after[source]);
    if ordered {
      SpendRefines(s, entries, log, source, now, after);
    }
  }

  lemma SpendCounts(entries: map<RawNet, Bucket>, permits: multiset<(RawNet, Kind)>, source: RawNet, entry: Bucket)
    requires source in entries && Counted(entries, permits)
    requires entry.queries == entries[source].queries + 1 && entry.connections == entries[source].connections
    ensures Counted(entries[source := entry], permits + multiset{(source, Query)})
  {
    forall x, kind
      ensures (permits + multiset{(source, Query)})[(x, kind)] == Live(entries[source := entry], x, kind)
    {
      assert permits[(x, kind)] == Live(entries, x, kind);
    }
  }

  lemma SpendRefines(s: Settings, entries: map<RawNet, Bucket>, log: seq<Grant>, source: RawNet, now: nat,
                     after: map<RawNet, Bucket>)
    requires source in entries && TOKEN <= entries[source].credit
    requires Refines(s, entries, log, now) && WellFormed(s, log) && UpTo(log, now)
    requires entries[source].updated == now && entries[source].credit == Reference(s, log, source, now)
    requires after.Keys == entries.Keys && forall x :: x in entries && x != source ==> after[x] == entries[x]
    requires after[source].credit == entries[source].credit - TOKEN && after[source].updated == now
    ensures var longer := log + [Grant(source, now)];
      Refines(s, after, longer, now) && WellFormed(s, longer) && UpTo(longer, now)
  {
    hide Refilled, Cap;
    var longer := log + [Grant(source, now)];
    assert longer[..|longer| - 1] == log;
    forall x, t | now <= t
      ensures Level(s, after, x, t) == Reference(s, longer, x, t)
    {
      assert Level(s, entries, x, t) == Reference(s, log, x, t);
    }
  }

  lemma ConnectFacts(s: Settings, entries: map<RawNet, Bucket>, sweep: seq<RawNet>, permits: multiset<(RawNet, Kind)>,
                     log: seq<Grant>, source: RawNet, now: nat, ordered: bool)
    requires source in entries && Indexed(entries, sweep) && Counted(entries, permits) && Filled(s, entries)
    requires ordered ==> NotAhead(entries, now) && Refines(s, entries, log, now)
    ensures var entry := entries[source];
      var after := entries[source := entry.(connections := entry.connections + 1)];
      && Indexed(after, sweep) && |after| == |entries| && Filled(s, after)
      && Counted(after, permits + multiset{(source, Connection)})
      && (ordered ==> NotAhead(after, now) && Refines(s, after, log, now))
  {
    hide Refines, Reference, Level, Indexed, Cap;
    var entry := entries[source];
    var after := entries[source := entry.(connections := entry.connections + 1)];
    UpdateKeepsIndex(entries, sweep, source, after[source]);
    SameCredit(s, entries, after, log, now);
  }

  lemma SameCredit(s: Settings, entries: map<RawNet, Bucket>, after: map<RawNet, Bucket>, log: seq<Grant>, latest: nat)
    requires after.Keys == entries.Keys
    requires forall x :: x in entries ==> after[x].credit == entries[x].credit && after[x].updated == entries[x].updated
    ensures Refines(s, entries, log, latest) ==> Refines(s, after, log, latest)
  {
    forall x, t | latest <= t
      ensures Level(s, after, x, t) == Level(s, entries, x, t)
    {
    }
  }

  lemma ReleaseFacts(s: Settings, entries: map<RawNet, Bucket>, sweep: seq<RawNet>, permits: multiset<(RawNet, Kind)>,
                     log: seq<Grant>, latest: nat, source: RawNet, kind: Kind)
    requires Indexed(entries, sweep) && Counted(entries, permits) && Filled(s, entries)
    requires (source, kind) in permits
    ensures source in entries && Live(entries, source, kind) > 0
    ensures var entry := entries[source];
      var after := entries[source := if kind == Query then entry.(queries := entry.queries - 1)
                                     else entry.(connections := entry.connections - 1)];
      && Indexed(after, sweep) && |after| == |entries| && after.Keys == entries.Keys && Filled(s, after)
      && Counted(after, permits - multiset{(source, kind)})
      && (NotAhead(entries, latest) ==> NotAhead(after, latest))
      && (Refines(s, entries, log, latest) ==> Refines(s, after, log, latest))
  {
    hide Refines, Reference, Level, Indexed, Cap;
    assert permits[(source, kind)] == Live(entries, source, kind);
    var entry := entries[source];
    var after := entries[source := if kind == Query then entry.(queries := entry.queries - 1)
                                   else entry.(connections := entry.connections - 1)];
    UpdateKeepsIndex(entries, sweep, source, after[source]);
    assert after.Keys == entries.Keys;
    SameCredit(s, entries, after, log, latest);
  }

  /** The state of a scan that has turned `i` entries of the queue. */
  ghost predicate Scanning(s: Settings, before: map<RawNet, Bucket>, entries: map<RawNet, Bucket>, q: seq<RawNet>,
                           i: nat, now: nat)
  {
    && i <= |q|
    && Indexed(before, q)
    && entries.Keys == before.Keys
    && Swept(s, before, entries, now)
    && (forall j :: i <= j < |q| ==> entries[q[j]] == before[q[j]])
    && (forall j :: 0 <= j < i ==> !Reclaimable(s, Refill(s, before[q[j]], now)))
  }

  lemma TurnOne(q: seq<RawNet>, i: nat)
    requires i < |q|
    ensures Turned(q, i)[0] == q[i]
    ensures Turned(q, i)[1..] == q[i + 1..] + q[..i]
    ensures q[i + 1..] + q[..i] + [q[i]] == Turned(q, i + 1)
  {
  }

  lemma ScanOne(s: Settings, before: map<RawNet, Bucket>, entries: map<RawNet, Bucket>, q: seq<RawNet>, i: nat,
                now: nat)
    requires Scanning(s, before, entries, q, i, now) && i < |q|
    ensures q[i] in entries
    ensures var entry := Refill(s, entries[q[i]], now);
      var after := entries[q[i] := entry];
      && Swept(s, before, after, now)
      && (!Reclaimable(s, entry) ==> Scanning(s, before, after, q, i + 1, now))
      && (Reclaimable(s, entry) ==> Swept(s, before, after - {q[i]}, now))
      && (after - {q[i]}).Keys == before.Keys - {q[i]}
  {
    hide Refill, Reclaimable, Refilled;
    assert q[i] in q;
  }

  lemma DropKeepsIndex(before: map<RawNet, Bucket>, q: seq<RawNet>, i: nat, after: map<RawNet, Bucket>,
                       rest: seq<RawNet>)
    requires Indexed(before, q) && i < |q|
    requires rest == q[i + 1..] + q[..i]
    requires after.Keys == before.Keys - {q[i]}
    ensures Indexed(after, rest)
    ensures |after| == |before| - 1
  {
    CutMembers(q, i, rest);
    CutDistinct(q, i, rest);
    assert |after.Keys| == |before.Keys| - 1;
  }

  lemma CutMembers(q: seq<RawNet>, i: nat, rest: seq<RawNet>)
    requires NoDuplicates(q) && i < |q| && rest == q[i + 1..] + q[..i]
    ensures forall x :: x in rest <==> x in q && x != q[i]
  {
    assert q == q[..i] + [q[i]] + q[i + 1..];
    assert q[i] !in q[..i] && q[i] !in q[i + 1..];
  }

  lemma CutDistinct(q: seq<RawNet>, i: nat, rest: seq<RawNet>)
    requires NoDuplicates(q) && i < |q| && rest == q[i + 1..] + q[..i]
    ensures NoDuplicates(rest)
  {
    forall j, k | 0 <= j < k < |rest| ensures rest[j] != rest[k] {
      var n := |q| - i - 1;
      assert rest[j] == if j < n then q[i + 1 + j] else q[j - n];
      assert rest[k] == if k < n then q[i + 1 + k] else q[k - n];
    }
  }

  lemma TurnKeepsIndex(before: map<RawNet, Bucket>, q: seq<RawNet>, k: nat, after: map<RawNet, Bucket>)
    requires Indexed(before, q) && k <= |q| && after.Keys == before.Keys
    ensures Indexed(after, Turned(q, k))
    ensures |after| == |before|
  {
    forall x ensures x in Turned(q, k) <==> x in q {
      assert q == q[..k] + q[k..];
    }
    assert |after.Keys| == |before.Keys|;
  }

  /** One refused attempt of a new source, with the table it met. */
  datatype Attempt = Attempt(entries: map<RawNet, Bucket>, sweep: seq<RawNet>, source: RawNet, now: nat)

  /** Consecutive refusals.  Between them known sources may come and go and
      permits may drop: neither touches the queue. */
  ghost predicate RefusedInTurn(s: Settings, attempts: seq<Attempt>) {
    forall k :: 0 <= k < |attempts| - 1 ==>
      Refused(s, attempts[k].entries, attempts[k].sweep, attempts[k + 1].sweep, attempts[k].source, attempts[k].now)
  }

  /** Each refusal brings an entry sixteen places forward, so after enough of
      them every entry has been looked at. */
  lemma {:induction false} QueueReaches(s: Settings, attempts: seq<Attempt>, place: nat) returns (k: nat)
    requires RefusedInTurn(s, attempts) && |attempts| >= 2 && place < |attempts[0].sweep|
    requires place < RECLAIM_SCAN * (|attempts| - 1)
    ensures k < |attempts| - 1
    ensures attempts[0].sweep[place] in attempts[k].sweep[..ScanLength(attempts[k].sweep)]
    decreases |attempts|
  {
    var q := attempts[0].sweep;
    var n := ScanLength(q);
    if place < n {
      assert q[..n][place] == q[place];
      k := 0;
    } else {
      assert Refused(s, attempts[0].entries, q, attempts[1].sweep, attempts[0].source, attempts[0].now);
      assert attempts[1].sweep[place - n] == q[place];
      forall j | 0 <= j < |attempts[1..]| - 1
        ensures Refused(s, attempts[1..][j].entries, attempts[1..][j].sweep, attempts[1..][j + 1].sweep,
                        attempts[1..][j].source, attempts[1..][j].now)
      {
        assert attempts[1..][j] == attempts[j + 1] && attempts[1..][j + 1] == attempts[j + 2];
      }
      var later := QueueReaches(s, attempts[1..], place - n);
      k := later + 1;
    }
  }

  /** As many refusals as a scan of the table takes meet every entry of it. */
  lemma EntryIsMet(s: Settings, attempts: seq<Attempt>, x: RawNet) returns (k: nat)
    requires RefusedInTurn(s, attempts) && |attempts| >= 2
    requires Indexed(attempts[0].entries, attempts[0].sweep) && x in attempts[0].entries
    requires s.maxSources <= RECLAIM_SCAN * (|attempts| - 1)
    ensures k < |attempts| - 1 && x in attempts[k].entries
    ensures !Reclaimable(s, Refill(s, attempts[k].entries[x], attempts[k].now))
  {
    ListedSize(attempts[0].sweep, attempts[0].entries.Keys);
    assert Refused(s, attempts[0].entries, attempts[0].sweep, attempts[1].sweep, attempts[0].source, attempts[0].now);
    var place :| 0 <= place < |attempts[0].sweep| && attempts[0].sweep[place] == x;
    k := QueueReaches(s, attempts, place);
    assert Refused(s, attempts[k].entries, attempts[k].sweep, attempts[k + 1].sweep, attempts[k].source,
                   attempts[k].now);
  }
}
