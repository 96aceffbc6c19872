/** The two indexes of a shard, buckets by key and recency lists by partition,
    and what it means that they agree. */
module ShardState {
  import opened Wrappers
  import opened Sequences
  import opened Scopes
  import opened CacheTypes
  import opened Responses
  import opened Knowledge
  import opened Snapshot

  /** One partition: its entries, most recently used first, those that left it
      but are still held by readers, and the bytes both are charged with. */
  datatype Partition = Partition(
    lru: seq<Entry>,
    detached: seq<Entry>,
    charged: nat,
    maxEntries: nat,
    maxBytes: nat)

  function Charges(s: seq<Entry>): nat {
    if s == [] then 0 else s[0].charge + Charges(s[1..])
  }

  lemma {:induction false} ChargesWithout(s: seq<Entry>, e: Entry)
    requires NoDuplicates(s)
    ensures Charges(Without(s, e)) == if e in s then Charges(s) - e.charge else Charges(s)
    ensures e in s ==> e.charge <= Charges(s)
  {
    if s != [] {
      assert s == [s[0]] + s[1..];
      ChargesWithout(s[1..], e);
      if s[0] == e {
        WithoutDistinct(s[1..], e);
        assert e !in s[1..];
      } else {
        assert ([s[0]] + Without(s[1..], e))[1..] == Without(s[1..], e);
      }
    }
  }

  lemma {:induction false} ChargesAppend(s: seq<Entry>, e: Entry)
    ensures Charges(s + [e]) == Charges(s) + e.charge
    ensures Charges([e] + s) == Charges(s) + e.charge
  {
    assert ([e] + s)[1..] == s;
    if s != [] {
      ChargesAppend(s[1..], e);
      assert (s + [e])[1..] == s[1..] + [e];
    } else {
      assert s + [e] == [e];
    }
  }

  ghost function Side(resident: set<Entry>, negative: bool): set<Entry> {
    set e | e in resident && e.negative == negative
  }

  /** A partition lists its side of the resident entries, holds what readers
      still use, and is charged with both, within its budgets. */
  ghost predicate Shelved(p: Partition, side: set<Entry>, readers: multiset<Entry>) {
    && Lists(p.lru, side)
    && NoDuplicates(p.detached)
    && (forall e :: e in p.detached ==> e !in side && e in readers)
    && p.charged == Charges(p.lru) + Charges(p.detached)
    && p.charged <= p.maxBytes
    && |p.lru| <= p.maxEntries
  }

  /** The buckets file every resident entry under its key, and nothing else. */
  ghost predicate Filed(buckets: map<Key, seq<Entry>>, resident: set<Entry>, maxVariants: nat) {
    && (forall e :: e in resident ==> e.key in buckets && e in buckets[e.key])
    && (forall k :: k in buckets ==> BucketOf(buckets[k], k, resident, maxVariants))
  }

  ghost predicate BucketOf(bucket: seq<Entry>, k: Key, resident: set<Entry>, maxVariants: nat) {
    && bucket != []
    && |bucket| <= maxVariants
    && NoDuplicates(bucket)
    && forall e :: e in bucket ==> e in resident && e.key == k
  }

  ghost function LearnedOf(resident: set<Entry>): set<Entry> {
    set e | e in resident && e.scope.Learned?
  }

  ghost function FailuresOf(resident: set<Entry>): set<Entry> {
    set e | e in resident && e.failure.Some?
  }

  /** Entries are told apart by their id, which the clock has passed. */
  ghost predicate Numbered(resident: set<Entry>, clock: nat, accessed: map<nat, nat>) {
    && (forall a, b :: a in resident && b in resident && a.id == b.id ==> a == b)
    && (forall e :: e in resident ==> e.id <= clock && e.id in accessed && accessed[e.id] <= clock)
  }

  /** Use stamps fall along the list. */
  ghost predicate Ordered(lru: seq<Entry>, accessed: map<nat, nat>) {
    && (forall i :: 0 <= i < |lru| ==> lru[i].id in accessed)
    && (forall i, j :: 0 <= i < j < |lru| ==> accessed[lru[i].id] > accessed[lru[j].id])
  }

  /** What every entry keeps for its whole life. */
  ghost predicate Sane(e: Entry, policy: Policy, latest: nat) {
    && e.inserted <= latest
    && 0 < e.lifetime <= e.retention
    && (e.failure.Some? ==> e.negative && e.retention == e.lifetime)
    && (e.failure.None? ==>
          && e.lifetime % SECOND == 0
          && Replayable(e.key.name, e.key.kind, policy, e.wire, e.lifetime / SECOND)
          && e.negative == IsNegative(e.key.kind, e.wire))
  }

  ghost predicate AllSane(resident: set<Entry>, policy: Policies, latest: nat) {
    forall e :: e in resident ==> Sane(e, policy.For(e.key), latest)
  }

  // ----- Removal -----

  /** The buckets without one entry; an emptied bucket goes. */
  function Unfile(buckets: map<Key, seq<Entry>>, e: Entry): map<Key, seq<Entry>> {
    if e.key !in buckets then buckets
    else
      var rest := Without(buckets[e.key], e);
      if rest == [] then buckets - {e.key} else buckets[e.key := rest]
  }

  lemma UnfileKeeps(buckets: map<Key, seq<Entry>>, resident: set<Entry>, maxVariants: nat, e: Entry)
    requires Filed(buckets, resident, maxVariants)
    ensures Filed(Unfile(buckets, e), resident - {e}, maxVariants)
  {
    var after := Unfile(buckets, e);
    forall x | x in resident - {e}
      ensures x.key in after && x in after[x.key]
    {
    }
    forall k | k in after
      ensures BucketOf(after[k], k, resident - {e}, maxVariants)
    {
      assert k in buckets && BucketOf(buckets[k], k, resident, maxVariants);
      WithoutDistinct(buckets[k], e);
    }
  }

  /** The partition once `e` left its list: a reader keeps the charge alive. */
  function Unshelve(p: Partition, e: Entry, held: bool): Partition
    requires e in p.lru && e.charge <= p.charged
  {
    if held then p.(lru := Without(p.lru, e), detached := p.detached + [e])
    else p.(lru := Without(p.lru, e), charged := p.charged - e.charge)
  }

  lemma UnshelveKeeps(p: Partition, side: set<Entry>, readers: multiset<Entry>, e: Entry)
    requires Shelved(p, side, readers) && e in p.lru
    ensures e.charge <= p.charged
    ensures Shelved(Unshelve(p, e, e in readers), side - {e}, readers)
  {
    ChargesWithout(p.lru, e);
    DropListed(p.lru, side, e);
    ChargesAppend(p.detached, e);
  }

  lemma {:induction false} OrderedWithout(lru: seq<Entry>, accessed: map<nat, nat>, e: Entry)
    requires Ordered(lru, accessed)
    ensures Ordered(Without(lru, e), accessed)
  {
    if lru != [] {
      var rest := lru[1..];
      assert forall i :: 0 <= i < |rest| ==> rest[i] == lru[i + 1];
      OrderedWithout(rest, accessed, e);
      var kept := Without(rest, e);
      forall i | 0 <= i < |kept|
        ensures accessed[lru[0].id] > accessed[kept[i].id]
      {
        assert kept[i] in kept;
        var j :| 0 <= j < |rest| && rest[j] == kept[i];
      }
    }
  }

  // ----- Insertion -----

  function File(buckets: map<Key, seq<Entry>>, e: Entry): map<Key, seq<Entry>> {
    buckets[e.key := (if e.key in buckets then buckets[e.key] else []) + [e]]
  }

  lemma FileKeeps(buckets: map<Key, seq<Entry>>, resident: set<Entry>, maxVariants: nat, e: Entry)
    requires Filed(buckets, resident, maxVariants) && e !in resident && 1 <= maxVariants
    requires e.key in buckets ==> |buckets[e.key]| < maxVariants
    ensures Filed(File(buckets, e), resident + {e}, maxVariants)
  {
    var after := File(buckets, e);
    forall k | k in after
      ensures BucketOf(after[k], k, resident + {e}, maxVariants)
    {
      if k in buckets {
        assert BucketOf(buckets[k], k, resident, maxVariants);
        assert e !in buckets[k];
      }
    }
  }

  lemma ShelveKeeps(p: Partition, side: set<Entry>, readers: multiset<Entry>, e: Entry, lru: seq<Entry>)
    requires Shelved(p, side, readers) && e !in side && e !in p.detached
    requires lru == [e] + p.lru || lru == p.lru + [e]
    requires |p.lru| < p.maxEntries && p.charged + e.charge <= p.maxBytes
    ensures Shelved(p.(lru := lru, charged := p.charged + e.charge), side + {e}, readers)
  {
    AddListed(p.lru, side, e);
    ChargesAppend(p.lru, e);
  }

  // ----- What removing or adding one entry does to the rest -----

  lemma SideWithout(resident: set<Entry>, e: Entry)
    ensures Side(resident - {e}, e.negative) == Side(resident, e.negative) - {e}
    ensures Side(resident - {e}, !e.negative) == Side(resident, !e.negative)
  {
  }

  lemma SideWith(resident: set<Entry>, e: Entry)
    ensures Side(resident + {e}, e.negative) == Side(resident, e.negative) + {e}
    ensures Side(resident + {e}, !e.negative) == Side(resident, !e.negative)
  {
  }

  function One(b: bool): nat {
    if b then 1 else 0
  }

  lemma CountsWithout(resident: set<Entry>, e: Entry)
    requires e in resident
    ensures |LearnedOf(resident - {e})| == |LearnedOf(resident)| - One(e.scope.Learned?)
    ensures |FailuresOf(resident - {e})| == |FailuresOf(resident)| - One(e.failure.Some?)
  {
    assert LearnedOf(resident - {e}) == LearnedOf(resident) - {e};
    assert FailuresOf(resident - {e}) == FailuresOf(resident) - {e};
  }

  lemma CountsWith(resident: set<Entry>, e: Entry)
    requires e !in resident
    ensures |LearnedOf(resident + {e})| == |LearnedOf(resident)| + One(e.scope.Learned?)
    ensures |FailuresOf(resident + {e})| == |FailuresOf(resident)| + One(e.failure.Some?)
  {
    assert LearnedOf(resident + {e}) == if e.scope.Learned? then LearnedOf(resident) + {e} else LearnedOf(resident);
    assert FailuresOf(resident + {e}) == if e.failure.Some? then FailuresOf(resident) + {e} else FailuresOf(resident);
  }

  /** Handles outside the shard: each is on an entry of its partition, resident
      or waiting for its last reader. */
  ghost predicate Tracked(readers: multiset<Entry>, resident: set<Entry>, parts: seq<Partition>, clock: nat)
    requires |parts| == 2
  {
    forall e :: e in readers ==> e.id <= clock && (e in resident || e in parts[One(e.negative)].detached)
  }

  ghost predicate SameBudgets(a: seq<Partition>, b: seq<Partition>) {
    && |a| == |b|
    && forall i :: 0 <= i < |a| ==> a[i].maxEntries == b[i].maxEntries && a[i].maxBytes == b[i].maxBytes
  }

  ghost predicate Recent(parts: seq<Partition>, accessed: map<nat, nat>) {
    forall i :: 0 <= i < |parts| ==> Ordered(parts[i].lru, accessed)
  }

  /** Both partitions are shelved. */
  ghost predicate Stocked(parts: seq<Partition>, resident: set<Entry>, readers: multiset<Entry>) {
    && |parts| == 2
    && Shelved(parts[0], Side(resident, false), readers)
    && Shelved(parts[1], Side(resident, true), readers)
    && (forall e :: e in parts[0].detached ==> !e.negative)
    && (forall e :: e in parts[1].detached ==> e.negative)
  }

  /** The partitions once an entry left. */
  function Take(parts: seq<Partition>, e: Entry, held: bool): seq<Partition>
    requires |parts| == 2 && e in parts[One(e.negative)].lru && e.charge <= parts[One(e.negative)].charged
  {
    parts[One(e.negative) := Unshelve(parts[One(e.negative)], e, held)]
  }

  lemma TakeKeeps(parts: seq<Partition>, resident: set<Entry>, readers: multiset<Entry>, e: Entry)
    requires Stocked(parts, resident, readers) && e in resident
    ensures e in parts[One(e.negative)].lru && e.charge <= parts[One(e.negative)].charged
    ensures Stocked(Take(parts, e, e in readers), resident - {e}, readers)
    ensures SameBudgets(parts, Take(parts, e, e in readers))
  {
    hide Shelved;
    SideWithout(resident, e);
    assert e in parts[One(e.negative)].lru by {
      ListedThere(parts[One(e.negative)], Side(resident, e.negative), readers, e);
    }
    UnshelveKeeps(parts[One(e.negative)], Side(resident, e.negative), readers, e);
  }

  lemma ListedThere(p: Partition, side: set<Entry>, readers: multiset<Entry>, e: Entry)
    requires Shelved(p, side, readers) && e in side
    ensures e in p.lru
  {
  }

  lemma TakeTracked(parts: seq<Partition>, resident: set<Entry>, readers: multiset<Entry>, clock: nat, e: Entry)
    requires |parts| == 2 && Tracked(readers, resident, parts, clock)
    requires e in parts[One(e.negative)].lru && e.charge <= parts[One(e.negative)].charged
    ensures Tracked(readers, resident - {e}, Take(parts, e, e in readers), clock)
  {
  }

  lemma TakeRecent(parts: seq<Partition>, accessed: map<nat, nat>, e: Entry, held: bool)
    requires |parts| == 2 && Recent(parts, accessed)
    requires e in parts[One(e.negative)].lru && e.charge <= parts[One(e.negative)].charged
    ensures Recent(Take(parts, e, held), accessed)
  {
    hide Ordered;
    OrderedWithout(parts[One(e.negative)].lru, accessed, e);
  }

  lemma TakeLength(parts: seq<Partition>, resident: set<Entry>, readers: multiset<Entry>, e: Entry)
    requires Stocked(parts, resident, readers) && e in resident
    requires e in parts[One(e.negative)].lru && e.charge <= parts[One(e.negative)].charged
    ensures |Take(parts, e, e in readers)[One(e.negative)].lru| == |parts[One(e.negative)].lru| - 1
    ensures Take(parts, e, e in readers)[One(!e.negative)] == parts[One(!e.negative)]
  {
    WithoutDistinct(parts[One(e.negative)].lru, e);
  }

  lemma SmallerKeeps(before: set<Entry>, after: set<Entry>, clock: nat, accessed: map<nat, nat>, policy: Policies,
                     latest: nat)
    requires after <= before && Numbered(before, clock, accessed) && AllSane(before, policy, latest)
    ensures Numbered(after, clock, accessed) && AllSane(after, policy, latest)
  {
    hide Sane;
  }

  /** `stamp` is older than every use in the list. */
  ghost predicate Below(stamp: nat, lru: seq<Entry>, accessed: map<nat, nat>) {
    forall i :: 0 <= i < |lru| ==> lru[i].id in accessed && stamp < accessed[lru[i].id]
  }

  lemma NewEntry(parts: seq<Partition>, resident: set<Entry>, readers: multiset<Entry>, clock: nat, accessed: map<nat,
                 nat>, e: Entry)
    requires Stocked(parts, resident, readers) && Numbered(resident, clock, accessed)
    requires Tracked(readers, resident, parts, clock) && e.id == clock + 1
    ensures e !in resident && e !in readers && e !in parts[One(e.negative)].detached
  {
  }

  /** The partitions once an entry joined, at the front or at the end. */
  function Put(parts: seq<Partition>, e: Entry, atEnd: bool): seq<Partition>
    requires |parts| == 2
  {
    var p := parts[One(e.negative)];
    parts[One(e.negative) := p.(lru := if atEnd then p.lru + [e] else [e] + p.lru, charged := p.charged + e.charge)]
  }

  predicate Fits(parts: seq<Partition>, e: Entry)
    requires |parts| == 2
  {
    var p := parts[One(e.negative)];
    |p.lru| < p.maxEntries && p.charged + e.charge <= p.maxBytes
  }

  lemma PutKeeps(parts: seq<Partition>, resident: set<Entry>, readers: multiset<Entry>, clock: nat, e: Entry,
                 atEnd: bool)
    requires Stocked(parts, resident, readers) && e !in resident && e !in parts[One(e.negative)].detached
    requires Tracked(readers, resident, parts, clock) && Fits(parts, e)
    ensures Stocked(Put(parts, e, atEnd), resident + {e}, readers)
    ensures SameBudgets(parts, Put(parts, e, atEnd))
    ensures Tracked(readers, resident + {e}, Put(parts, e, atEnd), clock + 1)
  {
    hide Shelved;
    SideWith(resident, e);
    ShelveKeeps(parts[One(e.negative)], Side(resident, e.negative), readers, e,
                Put(parts, e, atEnd)[One(e.negative)].lru);
  }

  lemma LargerKeeps(resident: set<Entry>, clock: nat, accessed: map<nat, nat>, policy: Policies, latest: nat, e: Entry,
                    use: nat)
    requires Numbered(resident, clock, accessed) && AllSane(resident, policy, latest)
    requires e.id == clock + 1 && use <= clock + 1 && Sane(e, policy.For(e.key), latest)
    ensures Numbered(resident + {e}, clock + 1, accessed[e.id := use])
    ensures AllSane(resident + {e}, policy, latest)
  {
    hide Sane;
  }

  /** The use stamp of a new entry. */
  function FirstUse(e: Entry, stamp: Option<nat>): nat {
    if stamp.Some? then stamp.value else e.id
  }

  lemma PutRecent(parts: seq<Partition>, resident: set<Entry>, readers: multiset<Entry>, clock: nat,
                  accessed: map<nat, nat>, e: Entry, stamp: Option<nat>)
    requires Stocked(parts, resident, readers) && Numbered(resident, clock, accessed) && Recent(parts, accessed)
    requires e.id == clock + 1
    requires stamp.Some? ==> Below(stamp.value, parts[One(e.negative)].lru, accessed)
    ensures Recent(Put(parts, e, stamp.Some?), accessed[e.id := FirstUse(e, stamp)])
  {
    hide Ordered, Shelved, Numbered, Below, FirstUse;
    SideListed(parts, resident, readers);
    OldStamps(parts[0].lru, Side(resident, false), resident, clock, accessed, e, FirstUse(e, stamp));
    OldStamps(parts[1].lru, Side(resident, true), resident, clock, accessed, e, FirstUse(e, stamp));
    OrderedPut(parts[One(e.negative)].lru, Side(resident, e.negative), resident, clock, accessed, e, stamp);
  }

  /** A list that falls in use, with a restored entry at its end, still falls
      exactly if the entry's stamp is older than every use in it. */
  lemma DemotedFalls(lru: seq<Entry>, side: set<Entry>, resident: set<Entry>, clock: nat, accessed: map<nat, nat>,
                     e: Entry, stamp: nat)
    requires Lists(lru, side) && side <= resident && Numbered(resident, clock, accessed) && e.id == clock + 1
    requires Ordered(lru, accessed)
    ensures Ordered(lru + [e], accessed[e.id := stamp]) <==> Below(stamp, lru, accessed)
  {
    OldStamps(lru, side, resident, clock, accessed, e, stamp);
    if Ordered(lru + [e], accessed[e.id := stamp]) {
      forall i | 0 <= i < |lru| ensures stamp < accessed[lru[i].id] {
        assert (lru + [e])[i] == lru[i] && (lru + [e])[|lru|] == e;
      }
    }
  }

  lemma SideListed(parts: seq<Partition>, resident: set<Entry>, readers: multiset<Entry>)
    requires Stocked(parts, resident, readers)
    ensures Lists(parts[0].lru, Side(resident, false)) && Lists(parts[1].lru, Side(resident, true))
  {
  }

  lemma OrderedPut(lru: seq<Entry>, side: set<Entry>, resident: set<Entry>, clock: nat, accessed: map<nat, nat>,
                   e: Entry, stamp: Option<nat>)
    requires Lists(lru, side) && side <= resident && Numbered(resident, clock, accessed) && e.id == clock + 1
    requires Ordered(lru, accessed)
    requires stamp.Some? ==> Below(stamp.value, lru, accessed)
    ensures Ordered(if stamp.Some? then lru + [e] else [e] + lru, accessed[e.id := FirstUse(e, stamp)])
  {
    OldStamps(lru, side, resident, clock, accessed, e, FirstUse(e, stamp));
  }

  /** A new id leaves the stamps of a list alone, and stays above them all. */
  lemma OldStamps(lru: seq<Entry>, side: set<Entry>, resident: set<Entry>, clock: nat, accessed: map<nat, nat>,
                  e: Entry, use: nat)
    requires Lists(lru, side) && side <= resident && Numbered(resident, clock, accessed) && e.id == clock + 1
    requires Ordered(lru, accessed)
    ensures Ordered(lru, accessed[e.id := use])
    ensures forall i :: 0 <= i < |lru| ==> lru[i].id != e.id && accessed[lru[i].id] < e.id
  {
    forall i | 0 <= i < |lru| ensures lru[i].id != e.id && accessed[lru[i].id] < e.id {
      assert lru[i] in lru;
    }
  }

  // ----- The whole shard -----

  /** All that a locked region reads and writes, and what its history adds. */
  datatype State = State(
    buckets: map<Key, seq<Entry>>,
    parts: seq<Partition>,
    clock: nat,
    accessed: map<nat, nat>,
    refreshed: set<Entry>,
    readers: multiset<Entry>,
    learned: nat,
    failures: nat,
    refreshUseful: nat,
    refreshUnused: nat,
    refreshAdmitted: nat,
    resident: set<Entry>,
    latest: nat,
    recency: bool,
    budgets: seq<(nat, nat)>)

  /** Both indexes hold the same entries, and every counter is true. */
  ghost predicate Good(s: State, maxVariants: nat, policy: Policies) {
    && 1 <= maxVariants
    && |s.parts| == 2
    && Budgeted(s.parts, s.budgets)
    && Stocked(s.parts, s.resident, s.readers)
    && Filed(s.buckets, s.resident, maxVariants)
    && Numbered(s.resident, s.clock, s.accessed)
    && Tracked(s.readers, s.resident, s.parts, s.clock)
    && AllSane(s.resident, policy, s.latest)
    && (s.recency ==> Recent(s.parts, s.accessed))
    && s.learned == |LearnedOf(s.resident)|
    && s.failures == |FailuresOf(s.resident)|
    && Settled(s)
  }

  /** The budgets of entries and bytes are the configured ones. */
  ghost predicate Budgeted(parts: seq<Partition>, budgets: seq<(nat, nat)>) {
    && |parts| == |budgets|
    && forall i :: 0 <= i < |parts| ==> (parts[i].maxEntries, parts[i].maxBytes) == budgets[i]
  }

  lemma BudgetsKept(a: seq<Partition>, b: seq<Partition>, budgets: seq<(nat, nat)>)
    requires SameBudgets(a, b) && Budgeted(a, budgets)
    ensures Budgeted(b, budgets)
  {
  }

  /** Every refresh is settled once or still waits on its resident entry. */
  ghost predicate Settled(s: State) {
    && s.refreshed <= s.resident
    && s.refreshAdmitted == s.refreshUseful + s.refreshUnused + |s.refreshed|
  }

  ghost predicate Removable(s: State, e: Entry) {
    && |s.parts| == 2
    && e in s.parts[One(e.negative)].lru
    && e.charge <= s.parts[One(e.negative)].charged
    && One(e.scope.Learned?) <= s.learned
    && One(e.failure.Some?) <= s.failures
  }

  /** What removing an entry leaves; a refresh nobody saw counts as unused. */
  ghost function Removed(s: State, e: Entry): State {
    if !Removable(s, e) then s
    else
      s.(parts := Take(s.parts, e, e in s.readers),
         buckets := Unfile(s.buckets, e),
         refreshed := s.refreshed - {e},
         refreshUnused := s.refreshUnused + One(e in s.refreshed),
         learned := s.learned - One(e.scope.Learned?),
         failures := s.failures - One(e.failure.Some?),
         resident := s.resident - {e})
  }

  lemma RemovedGood(s: State, maxVariants: nat, policy: Policies, e: Entry)
    requires Good(s, maxVariants, policy) && e in s.resident
    ensures Removable(s, e)
    ensures Good(Removed(s, e), maxVariants, policy)
    ensures SameBudgets(s.parts, Removed(s, e).parts)
    ensures |Removed(s, e).parts[One(e.negative)].lru| == |s.parts[One(e.negative)].lru| - 1
    ensures Removed(s, e).parts[One(!e.negative)] == s.parts[One(!e.negative)]
  {
    hide Stocked, Filed, Numbered, Tracked, AllSane, Recent, LearnedOf, FailuresOf, Unfile, Take, Settled, Budgeted;
    TakeKeeps(s.parts, s.resident, s.readers, e);
    BudgetsKept(s.parts, Take(s.parts, e, e in s.readers), s.budgets);
    TakeTracked(s.parts, s.resident, s.readers, s.clock, e);
    if s.recency {
      TakeRecent(s.parts, s.accessed, e, e in s.readers);
    }
    UnfileKeeps(s.buckets, s.resident, maxVariants, e);
    CountsWithout(s.resident, e);
    SmallerKeeps(s.resident, s.resident - {e}, s.clock, s.accessed, policy, s.latest);
    TakeLength(s.parts, s.resident, s.readers, e);
    RemovedSettled(s, e);
  }

  lemma RemovedSettled(s: State, e: Entry)
    requires Settled(s) && Removable(s, e)
    ensures Settled(Removed(s, e))
  {
  }

  /** What publishing one entry leaves. */
  ghost function Inserted(s: State, e: Entry, stamp: Option<nat>, refresh: bool): State
    requires |s.parts| == 2
  {
    s.(parts := Put(s.parts, e, stamp.Some?),
       buckets := File(s.buckets, e),
       clock := s.clock + 1,
       accessed := s.accessed[e.id := FirstUse(e, stamp)],
       recency := s.recency && (stamp.Some? ==> Below(stamp.value, s.parts[One(e.negative)].lru, s.accessed)),
       refreshed := if refresh then s.refreshed + {e} else s.refreshed,
       refreshAdmitted := s.refreshAdmitted + One(refresh),
       learned := s.learned + One(e.scope.Learned?),
       failures := s.failures + One(e.failure.Some?),
       resident := s.resident + {e})
  }

  lemma InsertedGood(s: State, maxVariants: nat, policy: Policies, e: Entry, stamp: Option<nat>, refresh: bool)
    requires Good(s, maxVariants, policy) && e.id == s.clock + 1 && Sane(e, policy.For(e.key), s.latest)
    requires Fits(s.parts, e)
    requires e.key in s.buckets ==> |s.buckets[e.key]| < maxVariants
    requires stamp.Some? ==> stamp.value <= s.clock
    ensures e !in s.resident
    ensures Good(Inserted(s, e, stamp, refresh), maxVariants, policy)
    ensures SameBudgets(s.parts, Inserted(s, e, stamp, refresh).parts)
  {
    hide Stocked, Filed, Numbered, Tracked, AllSane, Recent, LearnedOf, FailuresOf, File, Below, Put, Sane, Settled,
      Fits, Budgeted;
    NewEntry(s.parts, s.resident, s.readers, s.clock, s.accessed, e);
    PutKeeps(s.parts, s.resident, s.readers, s.clock, e, stamp.Some?);
    BudgetsKept(s.parts, Put(s.parts, e, stamp.Some?), s.budgets);
    FileKeeps(s.buckets, s.resident, maxVariants, e);
    CountsWith(s.resident, e);
    LargerKeeps(s.resident, s.clock, s.accessed, policy, s.latest, e, FirstUse(e, stamp));
    if Inserted(s, e, stamp, refresh).recency {
      PutRecent(s.parts, s.resident, s.readers, s.clock, s.accessed, e, stamp);
    }
    InsertedSettled(s, e, stamp, refresh);
  }

  /** A restored entry keeps the lists in order of use exactly if its stamp is
      older than every use in its own list. */
  lemma InsertedInOrderIff(s: State, maxVariants: nat, policy: Policies, e: Entry, stamp: nat)
    requires Good(s, maxVariants, policy) && s.recency && e.id == s.clock + 1
    ensures Recent(Put(s.parts, e, true), s.accessed[e.id := stamp]) <==>
      Below(stamp, s.parts[One(e.negative)].lru, s.accessed)
  {
    hide Filed, Tracked, AllSane, LearnedOf, FailuresOf, Settled, Ordered, Shelved, Numbered, Below, Budgeted;
    SideListed(s.parts, s.resident, s.readers);
    OldStamps(s.parts[0].lru, Side(s.resident, false), s.resident, s.clock, s.accessed, e, stamp);
    OldStamps(s.parts[1].lru, Side(s.resident, true), s.resident, s.clock, s.accessed, e, stamp);
    DemotedFalls(s.parts[One(e.negative)].lru, Side(s.resident, e.negative), s.resident, s.clock, s.accessed, e, stamp);
    var parts := Put(s.parts, e, true);
    assert parts[One(e.negative)].lru == s.parts[One(e.negative)].lru + [e];
    assert parts[One(!e.negative)] == s.parts[One(!e.negative)];
  }

  lemma InsertedSettled(s: State, e: Entry, stamp: Option<nat>, refresh: bool)
    requires Settled(s) && |s.parts| == 2 && e !in s.resident
    ensures Settled(Inserted(s, e, stamp, refresh))
  {
    hide Put, File, Below;
  }

  /** Only entries were lost on the way from `s` to `t`. */
  ghost predicate Lost(s: State, t: State) {
    && t.resident <= s.resident
    && t.clock == s.clock
    && t.accessed == s.accessed
    && t.readers == s.readers
    && t.latest == s.latest
    && t.recency == s.recency
    && t.refreshUseful == s.refreshUseful
    && t.refreshAdmitted == s.refreshAdmitted
    && t.budgets == s.budgets
    && SameBudgets(s.parts, t.parts)
    && (forall i :: 0 <= i < |s.parts| ==>
          |t.parts[i].lru| <= |s.parts[i].lru| && t.parts[i].charged <= s.parts[i].charged)
    && forall i :: 0 <= i < |s.parts| ==> HeldBack(s, t, i)
  }

  /** Of the bytes of entries that are gone, only what readers hold stays charged. */
  ghost predicate HeldBack(s: State, t: State, i: nat)
    requires i < |s.parts| == |t.parts|
  {
    forall e :: e in t.parts[i].detached <==>
      || e in s.parts[i].detached
      || (e in s.resident && e !in t.resident && e in s.readers && One(e.negative) == i)
  }

  lemma LostStep(s: State, t: State, maxVariants: nat, policy: Policies, e: Entry)
    requires Lost(s, t) && Good(t, maxVariants, policy) && e in t.resident
    ensures Lost(s, Removed(t, e))
    ensures Good(Removed(t, e), maxVariants, policy)
    ensures Removed(t, e).resident == t.resident - {e}
  {
    hide Good, Take, Unfile, HeldBack;
    RemovedGood(t, maxVariants, policy, e);
    assert |t.parts| == 2 by { TwoParts(t, maxVariants, policy); }
    forall i: nat | i < 2
      ensures HeldBack(s, Removed(t, e), i) && Removed(t, e).parts[i].charged <= t.parts[i].charged
    {
      assert HeldBack(s, t, i);
      HeldBackStep(s, t, i, e);
    }
  }

  lemma HeldBackStep(s: State, t: State, i: nat, e: Entry)
    requires |s.parts| == |t.parts| == 2 && i < 2 && HeldBack(s, t, i) && t.resident <= s.resident
    requires t.readers == s.readers && Removable(t, e) && e in t.resident
    ensures |Removed(t, e).parts| == 2 && HeldBack(s, Removed(t, e), i)
    ensures Removed(t, e).parts[i].charged <= t.parts[i].charged
  {
    hide Unfile, Without;
  }

  lemma TwoParts(s: State, maxVariants: nat, policy: Policies)
    requires Good(s, maxVariants, policy)
    ensures |s.parts| == 2 && 1 <= maxVariants
  {
  }

  // ----- Buckets -----

  function Bucket(buckets: map<Key, seq<Entry>>, key: Key): seq<Entry> {
    if key in buckets then buckets[key] else []
  }

  ghost function Variants(resident: set<Entry>, key: Key): set<Entry> {
    set e | e in resident && e.key == key
  }

  lemma BucketLists(s: State, maxVariants: nat, policy: Policies, key: Key)
    requires Good(s, maxVariants, policy)
    ensures Lists(Bucket(s.buckets, key), Variants(s.resident, key))
    ensures |Bucket(s.buckets, key)| == |Variants(s.resident, key)| <= maxVariants
  {
    hide Stocked, Numbered, Tracked, AllSane, Recent, LearnedOf, FailuresOf, Settled;
    if key in s.buckets {
      assert BucketOf(s.buckets[key], key, s.resident, maxVariants);
    }
    ListedSize(Bucket(s.buckets, key), Variants(s.resident, key));
  }

  lemma VariantsShrink(before: set<Entry>, after: set<Entry>, key: Key)
    requires after <= before
    ensures |Variants(after, key)| <= |Variants(before, key)|
  {
    SubsetSize(Variants(after, key), Variants(before, key));
  }

  lemma VariantsWithout(resident: set<Entry>, e: Entry)
    requires e in resident
    ensures |Variants(resident - {e}, e.key)| == |Variants(resident, e.key)| - 1
  {
    assert Variants(resident - {e}, e.key) == Variants(resident, e.key) - {e};
  }

  // ----- Uses -----

  /** What an observed hit leaves: the entry is the most recent one, a waiting
      refresh is settled, and the reader holds a handle. */
  ghost function Touched(s: State, e: Entry, fresh_: bool): State
    requires |s.parts| == 2
  {
    var p := s.parts[One(e.negative)];
    s.(parts := s.parts[One(e.negative) := p.(lru := [e] + Without(p.lru, e))],
       clock := s.clock + 1,
       accessed := s.accessed[e.id := s.clock + 1],
       refreshed := s.refreshed - {e},
       refreshUseful := s.refreshUseful + One(e in s.refreshed && fresh_),
       refreshUnused := s.refreshUnused + One(e in s.refreshed && !fresh_),
       readers := s.readers + multiset{e})
  }

  lemma {:induction false} ChargesFront(s: seq<Entry>, e: Entry)
    requires NoDuplicates(s) && e in s
    ensures Charges([e] + Without(s, e)) == Charges(s)
    ensures |[e] + Without(s, e)| == |s|
  {
    ChargesWithout(s, e);
    ChargesAppend(Without(s, e), e);
    WithoutDistinct(s, e);
  }

  lemma TouchShelved(p: Partition, side: set<Entry>, readers: multiset<Entry>, e: Entry)
    requires Shelved(p, side, readers) && e in side
    ensures Shelved(p.(lru := [e] + Without(p.lru, e)), side, readers + multiset{e})
  {
    TouchListed(p.lru, side, e);
    ChargesFront(p.lru, e);
  }

  lemma MoreReaders(p: Partition, side: set<Entry>, readers: multiset<Entry>, e: Entry)
    requires Shelved(p, side, readers)
    ensures Shelved(p, side, readers + multiset{e})
  {
  }

  lemma TouchStocked(parts: seq<Partition>, resident: set<Entry>, readers: multiset<Entry>, e: Entry)
    requires Stocked(parts, resident, readers) && e in resident
    ensures var p := parts[One(e.negative)];
      Stocked(parts[One(e.negative) := p.(lru := [e] + Without(p.lru, e))], resident, readers + multiset{e})
  {
    hide Shelved;
    TouchShelved(parts[One(e.negative)], Side(resident, e.negative), readers, e);
    MoreReaders(parts[One(!e.negative)], Side(resident, !e.negative), readers, e);
  }

  lemma TouchOrdered(lru: seq<Entry>, side: set<Entry>, resident: set<Entry>, clock: nat, accessed: map<nat, nat>,
                     e: Entry)
    requires Lists(lru, side) && side <= resident && Numbered(resident, clock, accessed) && Ordered(lru, accessed)
    requires e in resident
    ensures e in side ==> Ordered([e] + Without(lru, e), accessed[e.id := clock + 1])
    ensures e !in side ==> Ordered(lru, accessed[e.id := clock + 1])
  {
    hide Ordered, Numbered;
    OrderedWithout(lru, accessed, e);
    WithoutDistinct(lru, e);
    FrontOrdered(Without(lru, e), resident, clock, accessed, e);
  }

  lemma FrontOrdered(rest: seq<Entry>, resident: set<Entry>, clock: nat, accessed: map<nat, nat>, e: Entry)
    requires Numbered(resident, clock, accessed) && Ordered(rest, accessed)
    requires e in resident && e !in rest && forall x :: x in rest ==> x in resident
    ensures Ordered([e] + rest, accessed[e.id := clock + 1])
    ensures Ordered(rest, accessed[e.id := clock + 1])
  {
    forall i | 0 <= i < |rest| ensures rest[i].id != e.id && accessed[rest[i].id] <= clock {
      assert rest[i] in rest;
    }
  }

  lemma TouchRecent(parts: seq<Partition>, resident: set<Entry>, readers: multiset<Entry>, clock: nat,
                    accessed: map<nat, nat>, e: Entry)
    requires Stocked(parts, resident, readers) && Numbered(resident, clock, accessed) && Recent(parts, accessed)
    requires e in resident
    ensures var p := parts[One(e.negative)];
      Recent(parts[One(e.negative) := p.(lru := [e] + Without(p.lru, e))], accessed[e.id := clock + 1])
  {
    hide Ordered, Shelved, Numbered;
    SideListed(parts, resident, readers);
    TouchOrdered(parts[0].lru, Side(resident, false), resident, clock, accessed, e);
    TouchOrdered(parts[1].lru, Side(resident, true), resident, clock, accessed, e);
  }

  lemma TouchNumbered(resident: set<Entry>, clock: nat, accessed: map<nat, nat>, e: Entry)
    requires Numbered(resident, clock, accessed)
    ensures Numbered(resident, clock + 1, accessed[e.id := clock + 1])
  {
  }

  lemma TouchTracked(readers: multiset<Entry>, resident: set<Entry>, parts: seq<Partition>, clock: nat,
                     accessed: map<nat, nat>, e: Entry)
    requires |parts| == 2 && Tracked(readers, resident, parts, clock) && e in resident
    requires Numbered(resident, clock, accessed)
    ensures var p := parts[One(e.negative)];
      Tracked(readers + multiset{e}, resident, parts[One(e.negative) := p.(lru := [e] + Without(p.lru, e))], clock + 1)
  {
  }

  lemma TouchSettled(s: State, e: Entry, fresh_: bool)
    requires Settled(s) && |s.parts| == 2
    ensures Settled(Touched(s, e, fresh_))
  {
    hide Without;
  }

  lemma TouchedGood(s: State, maxVariants: nat, policy: Policies, e: Entry, fresh_: bool)
    requires Good(s, maxVariants, policy) && e in s.resident
    ensures Good(Touched(s, e, fresh_), maxVariants, policy)
  {
    hide Stocked, Filed, Numbered, Tracked, AllSane, Recent, LearnedOf, FailuresOf, Settled, Without;
    TouchStocked(s.parts, s.resident, s.readers, e);
    TouchNumbered(s.resident, s.clock, s.accessed, e);
    TouchTracked(s.readers, s.resident, s.parts, s.clock, s.accessed, e);
    if s.recency {
      TouchRecent(s.parts, s.resident, s.readers, s.clock, s.accessed, e);
    }
    TouchSettled(s, e, fresh_);
  }

  /** What a lookup that only peeks leaves: one more handle. */
  ghost function Handed(s: State, e: Entry): State {
    s.(readers := s.readers + multiset{e})
  }

  lemma HandedGood(s: State, maxVariants: nat, policy: Policies, e: Entry)
    requires Good(s, maxVariants, policy) && e in s.resident
    ensures Good(Handed(s, e), maxVariants, policy)
  {
    hide Shelved, Filed, AllSane, Recent, LearnedOf, FailuresOf;
    MoreReaders(s.parts[0], Side(s.resident, false), s.readers, e);
    MoreReaders(s.parts[1], Side(s.resident, true), s.readers, e);
  }

  /** What a dropped handle leaves: the last one on an entry that already left
      gives its bytes back. */
  ghost function Released(s: State, e: Entry): State
    requires |s.parts| == 2
  {
    var left := s.readers - multiset{e};
    var p := s.parts[One(e.negative)];
    if e !in left && e in p.detached && e.charge <= p.charged then
      s.(readers := left,
         parts := s.parts[One(e.negative) := p.(detached := Without(p.detached, e), charged := p.charged - e.charge)])
    else s.(readers := left)
  }

  lemma ReleaseShelved(p: Partition, side: set<Entry>, readers: multiset<Entry>, e: Entry)
    requires Shelved(p, side, readers) && e in readers
    ensures e in p.detached ==> e.charge <= p.charged
    ensures var left := readers - multiset{e};
      && (e !in p.detached || e in left ==> Shelved(p, side, left))
      && (e !in left && e in p.detached ==>
            Shelved(p.(detached := Without(p.detached, e), charged := p.charged - e.charge), side, left))
  {
    WithoutDistinct(p.detached, e);
    ChargesWithout(p.detached, e);
  }

  lemma ReleaseStocked(s: State, e: Entry)
    requires Stocked(s.parts, s.resident, s.readers) && e in s.readers
    ensures Stocked(Released(s, e).parts, s.resident, Released(s, e).readers)
    ensures forall i :: 0 <= i < 2 ==> Released(s, e).parts[i].charged <= s.parts[i].charged
    ensures forall i :: 0 <= i < 2 ==> Released(s, e).parts[i].lru == s.parts[i].lru
  {
    hide Shelved, Without;
    ReleaseShelved(s.parts[0], Side(s.resident, false), s.readers, e);
    ReleaseShelved(s.parts[1], Side(s.resident, true), s.readers, e);
  }

  lemma ReleaseTracked(s: State, e: Entry)
    requires |s.parts| == 2 && Tracked(s.readers, s.resident, s.parts, s.clock)
    ensures Tracked(Released(s, e).readers, s.resident, Released(s, e).parts, s.clock)
  {
  }

  lemma ReleasedGood(s: State, maxVariants: nat, policy: Policies, e: Entry)
    requires Good(s, maxVariants, policy) && e in s.readers
    ensures Good(Released(s, e), maxVariants, policy)
    ensures forall i :: 0 <= i < 2 ==> Released(s, e).parts[i].charged <= s.parts[i].charged
  {
    hide Stocked, Tracked, Filed, AllSane, Ordered, LearnedOf, FailuresOf, Without, Numbered;
    ReleaseStocked(s, e);
    ReleaseTracked(s, e);
  }
}
