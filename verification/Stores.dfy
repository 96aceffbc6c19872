/** The single writer of subscription sources: objects on disk, the catalog that
    selects them, and what a power loss may leave of both
    (src/filter_subscriptions/store.rs). */
module Stores {
  import opened Wrappers
  import opened Catalogs

  /** How far a catalog commit gets on disk: stopped before the rename, or
      renamed, with or without its directory reaching the disk. */
  datatype CommitIo = CommitStopped | Renamed(synced: bool)

  /** How far an object installation gets: the syncs are those of the object
      directory and of the staging directory. */
  datatype InstallIo = InstallStopped | Moved(kept: bool, cleaned: bool)

  datatype Outcome = Refused | Durable | CommittedUncertain

  /** What a power loss may leave: one of `possible` as the catalog, at least the
      intact objects of `solid`, and some file for each digest of `damaged`, which
      somebody else overwrote.  `log` lists the catalogs selected since the last
      power loss, and `safe` the digests that were pinned while they were sure to
      last. */
  datatype Fate = Fate(possible: set<Catalog>, solid: set<Digest>, damaged: set<Digest>, safe: set<Digest>,
                       log: seq<Catalog>)

  /** The digests that a power loss leaves a file for. */
  ghost function Lasting(fate: Fate): set<Digest> {
    fate.solid + fate.damaged
  }

  /** The file of a digest holds what the digest says. */
  predicate Intact(objects: map<Digest, string>, d: Digest) {
    d in objects && Sha256(objects[d]) == d
  }

  predicate Verified(objects: map<Digest, string>, r: Record) {
    Intact(objects, r.sha256) && |objects[r.sha256]| == r.bytes
  }

  ghost function IntactOnes(objects: map<Digest, string>): set<Digest> {
    set d | d in objects && Intact(objects, d)
  }

  ghost predicate RecordsBacked(records: seq<Record>, lasting: set<Digest>) {
    forall r :: r in records ==> r.sha256 in lasting
  }

  ghost predicate AllBacked(possible: set<Catalog>, lasting: set<Digest>) {
    forall c :: c in possible ==> RecordsBacked(c.records, lasting)
  }

  /** A record's length is that of its content. */
  ghost predicate Sized(records: seq<Record>) {
    forall r :: r in records ==> |r.sha256.content| == r.bytes
  }

  /** Each pinned object is there and counted once per pin that is held. */
  ghost predicate Pinned(objects: map<Digest, string>, pins: map<Digest, nat>, held: multiset<Digest>) {
    && (forall d :: d in pins <==> d in held)
    && (forall d :: d in pins ==> pins[d] == held[d] && d in objects)
  }

  ghost predicate Consistent(catalog: Catalog, objects: map<Digest, string>, fate: Fate) {
    && catalog in fate.possible
    && (forall c :: c in fate.possible ==> ValidCatalog(c) && Sized(c.records))
    && (forall d :: d in fate.solid ==> Intact(objects, d))
    && (forall d :: d in objects ==> Intact(objects, d) || d in fate.damaged)
    && fate.damaged <= objects.Keys
    && Chain(fate.log) && fate.log[|fate.log| - 1] == catalog
  }

  /** The catalog that a batch asks for, before trimming. */
  function Replaced(records: seq<Record>, batch: seq<Record>): (s: seq<Record>)
    ensures forall r :: r in s <==>
      r in batch || (r in records && forall b :: b in batch ==> b.fingerprint != r.fingerprint)
  {
    Others(records, batch) + batch
  }

  predicate Names(batch: seq<Record>, fingerprint: nat) {
    exists i :: 0 <= i < |batch| && batch[i].fingerprint == fingerprint
  }

  function Others(records: seq<Record>, batch: seq<Record>): (s: seq<Record>)
    ensures forall r :: r in s <==> r in records && !Names(batch, r.fingerprint)
  {
    if records == [] then []
    else (if Names(batch, records[0].fingerprint) then [] else [records[0]]) + Others(records[1..], batch)
  }

  lemma {:induction false} OthersUnique(records: seq<Record>, batch: seq<Record>)
    requires Unique(records)
    ensures Unique(Others(records, batch))
  {
    if records != [] {
      OthersUnique(records[1..], batch);
      var rest := Others(records[1..], batch);
      forall j | 0 <= j < |rest| ensures rest[j].fingerprint != records[0].fingerprint {
        assert rest[j] in records[1..];
      }
    }
  }

  lemma ReplacedUnique(records: seq<Record>, batch: seq<Record>)
    requires Unique(records) && Unique(batch)
    ensures Unique(Replaced(records, batch))
  {
    OthersUnique(records, batch);
    var o := Others(records, batch);
    forall i, j | 0 <= i < |o| && 0 <= j < |batch| ensures o[i].fingerprint != batch[j].fingerprint {
      assert o[i] in o;
    }
  }

  /** The records after the first `k` statuses are set. */
  function WithStatuses(records: seq<Record>, statuses: seq<(nat, Status)>, k: nat): (s: seq<Record>)
    requires k <= |statuses|
    ensures |s| == |records|
    ensures forall i :: 0 <= i < |s| ==> s[i] == records[i].(status := s[i].status)
  {
    if k == 0 then records
    else WithStatus(WithStatuses(records, statuses, k - 1), statuses[k - 1].0, statuses[k - 1].1)
  }

  /** The last of the first `k` statuses that names `fingerprint`. */
  function StatusFor(statuses: seq<(nat, Status)>, k: nat, fingerprint: nat): Option<Status>
    requires k <= |statuses|
  {
    if k == 0 then None
    else if statuses[k - 1].0 == fingerprint then Some(statuses[k - 1].1)
    else StatusFor(statuses, k - 1, fingerprint)
  }

  /** Every record gets the last status that names it, and keeps its own if none does. */
  lemma {:induction false} StatusOfEach(records: seq<Record>, statuses: seq<(nat, Status)>, k: nat, i: nat)
    requires Unique(records) && k <= |statuses| && i < |records|
    ensures var last := StatusFor(statuses, k, records[i].fingerprint);
      WithStatuses(records, statuses, k)[i] ==
      if last.Some? then records[i].(status := last.value) else records[i]
  {
    hide WithStatus, Unique;
    if k > 0 {
      StatusOfEach(records, statuses, k - 1, i);
      StillUniqueWith(records, WithStatuses(records, statuses, k - 1));
      StatusOfOne(WithStatuses(records, statuses, k - 1), statuses[k - 1].0, statuses[k - 1].1);
    }
  }

  lemma StillUniqueWith(a: seq<Record>, b: seq<Record>)
    requires Unique(a) && |a| == |b| && forall i :: 0 <= i < |a| ==> b[i] == a[i].(status := b[i].status)
    ensures Unique(b)
  {
  }

  /** `c` with its revision moved on from `from` exactly if a choice differs. */
  function Bumped(from: Catalog, c: Catalog): (b: Catalog)
    requires c.revision == from.revision
    ensures Revised(from, b) && b.records == c.records
  {
    if Choices(c.records) != Choices(from.records) then c.(revision := c.revision + 1) else c
  }

  /** The records that outlive a collection. */
  predicate Outlives(c: Catalog, pinned: set<Digest>, now: nat, pressure: bool, r: Record) {
    r.fingerprint in References(c) || r.sha256 in pinned || (!pressure && Monus(now, r.preparedAt) < PREPARED_TTL)
  }

  function Outliving(records: seq<Record>, c: Catalog, pinned: set<Digest>, now: nat, pressure: bool): (s: seq<Record>)
    ensures forall r :: r in s <==> r in records && Outlives(c, pinned, now, pressure, r)
    ensures |s| <= |records| && (|s| == |records| ==> s == records)
    ensures |s| < |records| ==> exists r :: r in records && r !in s
  {
    if records == [] then []
    else
      var rest := Outliving(records[1..], c, pinned, now, pressure);
      if Outlives(c, pinned, now, pressure, records[0]) then [records[0]] + rest else rest
  }

  function Fingerprints(batch: seq<Record>): set<nat> {
    set i | 0 <= i < |batch| :: batch[i].fingerprint
  }

  /** The records that a batch leaves in the catalog, if there is room. */
  function Target(c: Catalog, batch: seq<Record>, statuses: seq<(nat, Status)>,
                  pinned: set<Digest>): Option<seq<Record>> {
    Trimmed(WithStatuses(Replaced(c.records, batch), statuses, |statuses|), References(c), pinned, Fingerprints(batch))
  }

  predicate BatchFits(objects: map<Digest, string>, batch: seq<Record>, statuses: seq<(nat, Status)>) {
    && |batch| <= SLOTS && |statuses| <= SLOTS && Unique(batch)
    && forall i :: 0 <= i < |batch| ==> ValidRecord(batch[i]) && Verified(objects, batch[i])
  }

  /** `r` is `x` but for its status. */
  ghost predicate Same(r: Record, x: Record) {
    r == x.(status := r.status)
  }

  /** Every record of `t` is one of `base` but for its status. */
  ghost predicate From(t: seq<Record>, base: seq<Record>) {
    forall r :: r in t ==> exists x :: x in base && Same(r, x)
  }

  lemma FromSame(t: seq<Record>, base: seq<Record>)
    requires |t| == |base| && forall i :: 0 <= i < |t| ==> Same(t[i], base[i])
    ensures From(t, base)
  {
    forall r | r in t ensures exists x :: x in base && Same(r, x) {
      var i :| 0 <= i < |t| && t[i] == r;
      assert base[i] in base && Same(r, base[i]);
    }
  }

  lemma FromPart(t: seq<Record>, all: seq<Record>, base: seq<Record>)
    requires From(all, base) && forall r :: r in t ==> r in all
    ensures From(t, base)
  {
  }

  /** The records of a batch stay, whatever else gives way. */
  lemma BatchStays(records: seq<Record>, batch: seq<Record>, all: seq<Record>, t: seq<Record>)
    requires |all| == |Replaced(records, batch)|
    requires forall i :: 0 <= i < |all| ==> Same(all[i], Replaced(records, batch)[i])
    requires forall r :: r in all && r !in t ==> r.fingerprint !in Fingerprints(batch)
    ensures From(batch, t)
  {
    var base := Replaced(records, batch);
    forall r | r in batch ensures exists x :: x in t && Same(r, x) {
      var i :| 0 <= i < |batch| && batch[i] == r;
      var k := |Others(records, batch)| + i;
      assert base[k] == r && Same(all[k], base[k]);
      assert all[k] in all && all[k].fingerprint in Fingerprints(batch);
      assert all[k] in t && Same(r, all[k]);
    }
  }

  /** A batch keeps one record per fingerprint, invents none, and holds all of
      its own. */
  lemma TargetIsFrom(c: Catalog, batch: seq<Record>, statuses: seq<(nat, Status)>, pinned: set<Digest>)
    requires Unique(c.records) && Unique(batch) && Target(c, batch, statuses, pinned).Some?
    ensures var t := Target(c, batch, statuses, pinned).value;
      && Unique(t) && From(t, Replaced(c.records, batch)) && From(batch, t)
  {
    hide From, Replaced, WithStatuses, Trimmed, Fingerprints, References, Same;
    var base := Replaced(c.records, batch);
    var all := WithStatuses(base, statuses, |statuses|);
    var t := Target(c, batch, statuses, pinned).value;
    StatusesSame(base, statuses);
    assert Unique(all) by { ReplacedUnique(c.records, batch); }
    TrimKeeps(all, References(c), pinned, Fingerprints(batch));
    FromSame(all, base);
    FromPart(t, all, base);
    BatchStays(c.records, batch, all, t);
  }

  lemma StatusesSame(base: seq<Record>, statuses: seq<(nat, Status)>)
    ensures var all := WithStatuses(base, statuses, |statuses|);
      && |all| == |base|
      && forall i :: 0 <= i < |all| ==> Same(all[i], base[i])
  {
  }

  lemma BackedFrom(t: seq<Record>, base: seq<Record>, lasting: set<Digest>)
    requires From(t, base)
    ensures Sized(base) ==> Sized(t)
    ensures RecordsBacked(base, lasting) ==> RecordsBacked(t, lasting)
  {
    forall r | r in t
      ensures exists x :: x in base && x.sha256 == r.sha256 && x.bytes == r.bytes
    {
      var x :| x in base && Same(r, x);
    }
  }

  /** A batch of verified objects is backed if the catalog was; and it is backed
      only if its objects outlast a power loss. */
  lemma BatchBacked(c: Catalog, batch: seq<Record>, objects: map<Digest, string>, lasting: set<Digest>, t: seq<Record>)
    requires From(t, Replaced(c.records, batch)) && From(batch, t)
    requires Sized(c.records) && forall i :: 0 <= i < |batch| ==> Verified(objects, batch[i])
    ensures Sized(t)
    ensures RecordsBacked(c.records, lasting) ==> (RecordsBacked(t, lasting) <==> RecordsBacked(batch, lasting))
  {
    hide From;
    BackedFrom(t, Replaced(c.records, batch), lasting);
    BackedFrom(batch, t, lasting);
    assert forall r :: r in batch ==> Verified(objects, r);
  }

  // ----- What each step keeps -----

  lemma DamageKeeps(catalog: Catalog, objects: map<Digest, string>, fate: Fate, d: Digest, content: string)
    requires Consistent(catalog, objects, fate) && d in objects && Sha256(content) != d
    ensures Consistent(catalog, objects[d := content], Damaged(fate, d))
    ensures Lasting(fate) <= Lasting(Damaged(fate, d))
    ensures IntactOnes(objects) <= fate.solid ==> IntactOnes(objects[d := content]) <= Damaged(fate, d).solid
  {
    hide ValidCatalog, Chain, Sized;
  }

  ghost function Damaged(fate: Fate, d: Digest): Fate {
    fate.(solid := fate.solid - {d}, damaged := fate.damaged + {d})
  }

  lemma MoreBacked(possible: set<Catalog>, lasting: set<Digest>, more: set<Digest>)
    requires AllBacked(possible, lasting) && lasting <= more
    ensures AllBacked(possible, more)
  {
  }

  lemma PinKeeps(objects: map<Digest, string>, pins: map<Digest, nat>, held: multiset<Digest>, d: Digest)
    requires Pinned(objects, pins, held) && d in objects
    ensures Pinned(objects, pins[d := (if d in pins then pins[d] else 0) + 1], held + multiset{d})
  {
    var pins' := pins[d := (if d in pins then pins[d] else 0) + 1];
    forall x | x in pins' ensures pins'[x] == (held + multiset{d})[x] {
    }
  }

  lemma UnpinKeeps(objects: map<Digest, string>, pins: map<Digest, nat>, held: multiset<Digest>, d: Digest)
    requires Pinned(objects, pins, held) && d in held
    ensures d in pins && pins[d] > 0
    ensures pins[d] > 1 ==> Pinned(objects, pins[d := pins[d] - 1], held - multiset{d})
    ensures pins[d] == 1 ==> Pinned(objects, pins[d := 0] - {d}, held - multiset{d})
  {
    var held' := held - multiset{d};
    assert held'[d] == held[d] - 1;
    forall x | x != d ensures held'[x] == held[x] {
    }
  }

  /** What a rename leaves: until the directory reaches the disk, a power loss may
      still bring back what was possible before. */
  ghost function Committed(fate: Fate, candidate: Catalog, synced: bool): Fate {
    fate.(possible := if synced then {candidate} else fate.possible + {candidate}, log := fate.log + [candidate])
  }

  lemma CommitKeeps(catalog: Catalog, objects: map<Digest, string>, fate: Fate, candidate: Catalog, synced: bool)
    requires Consistent(catalog, objects, fate)
    requires ValidCatalog(candidate) && Sized(candidate.records) && Revised(catalog, candidate)
    ensures Consistent(candidate, objects, Committed(fate, candidate, synced))
    ensures AllBacked(fate.possible, Lasting(fate)) ==>
      (AllBacked(Committed(fate, candidate, synced).possible, Lasting(fate)) <==>
       RecordsBacked(candidate.records, Lasting(fate)))
  {
    hide ValidCatalog, Revised, Sized, RecordsBacked;
    var log := fate.log + [candidate];
    assert Chain(log) by {
      forall i | 0 < i < |log| ensures Revised(log[i - 1], log[i]) {
        if i < |fate.log| {
          assert Revised(fate.log[i - 1], fate.log[i]);
        }
      }
    }
    assert candidate in Committed(fate, candidate, synced).possible;
  }

  /** A sync of the object directory makes what is there last. */
  ghost function Synced(fate: Fate, objects: map<Digest, string>): Fate {
    fate.(solid := IntactOnes(objects), damaged := objects.Keys - IntactOnes(objects))
  }

  /** An object that reached its directory; `synced` also made it last. */
  ghost function Placed(fate: Fate, objects: map<Digest, string>, synced: bool): Fate {
    if synced then Synced(fate, objects) else fate
  }

  lemma PlaceKeeps(catalog: Catalog, objects: map<Digest, string>, fate: Fate, d: Digest, synced: bool)
    requires Consistent(catalog, objects, fate) && (d in objects ==> !Intact(objects, d))
    ensures var objects' := objects[d := d.content];
      && Consistent(catalog, objects', Placed(fate, objects', synced))
      && Lasting(fate) <= Lasting(Placed(fate, objects', synced))
      && (synced ==> d in Synced(fate, objects').solid)
  {
    hide ValidCatalog, Chain, Sized;
  }

  lemma PowerLossKeeps(catalog: Catalog, objects: map<Digest, string>, fate: Fate, survivor: Catalog, left: map<Digest,
                       string>)
    requires Consistent(catalog, objects, fate) && survivor in fate.possible
    requires forall d :: d in fate.solid ==> Intact(left, d)
    requires forall d :: d in fate.damaged ==> d in left
    ensures var fate' := Synced(Fate({survivor}, {}, {}, {}, [survivor]), left);
      && Consistent(survivor, left, fate')
      && (AllBacked(fate.possible, Lasting(fate)) ==>
            && AllBacked({survivor}, Lasting(fate'))
            && forall r :: r in survivor.records ==> Verified(left,
                                                              r) || (r.sha256 in left && r.sha256 in fate.damaged))
  {
    hide ValidCatalog;
    if AllBacked(fate.possible, Lasting(fate)) {
      assert RecordsBacked(survivor.records, Lasting(fate));
    }
  }

  /** The digests that a collection must not touch. */
  predicate Kept(c: Catalog, pins: map<Digest, nat>, d: Digest) {
    d in pins || exists i :: 0 <= i < |c.records| && c.records[i].sha256 == d
  }

  lemma KeptMeans(c: Catalog, pins: map<Digest, nat>)
    ensures forall d :: Kept(c, pins, d) <==> d in pins || exists r :: r in c.records && r.sha256 == d
  {
    forall d ensures Kept(c, pins, d) <==> d in pins || exists r :: r in c.records && r.sha256 == d {
      if d !in pins && exists r :: r in c.records && r.sha256 == d {
        var r :| r in c.records && r.sha256 == d;
        var i :| 0 <= i < |c.records| && c.records[i] == r;
        assert c.records[i].sha256 == d;
      }
    }
  }

  lemma RemoveKeeps(catalog: Catalog, objects: map<Digest, string>, fate: Fate, d: Digest)
    requires Consistent(catalog, objects, fate) && d in objects
    ensures Consistent(catalog, objects - {d}, Gone(fate, d))
  {
    hide ValidCatalog, Chain, Sized;
  }

  ghost function Gone(fate: Fate, d: Digest): Fate {
    fate.(solid := fate.solid - {d}, damaged := fate.damaged - {d})
  }

  lemma SyncKeeps(catalog: Catalog, objects: map<Digest, string>, fate: Fate)
    requires Consistent(catalog, objects, fate)
    ensures Consistent(catalog, objects, Synced(fate, objects))
    ensures Lasting(fate) <= Lasting(Synced(fate, objects)) == objects.Keys
  {
    hide ValidCatalog, Chain, Sized;
  }

  class Store {
    var catalog: Catalog
    /** What a read of the catalog file gives. */
    var onDisk: Catalog
    var uncertain: bool
    /** The reservation of the preparation that is running. */
    var staging: Option<nat>
    var pins: map<Digest, nat>
    var objects: map<Digest, string>
    ghost var held: multiset<Digest>
    ghost var fate: Fate

    /** While a preparation runs, every intact object outlasts a power loss. */
    ghost predicate Valid()
      reads this
    {
      && onDisk == catalog
      && Consistent(catalog, objects, fate)
      && Pinned(objects, pins, held)
      && (staging.Some? ==> IntactOnes(objects) <= fate.solid)
      && fate.safe <= pins.Keys
      && fate.safe <= Lasting(fate)
    }

    /** Whatever a power loss leaves as the catalog, it leaves its objects. */
    ghost predicate Backed()
      reads this
    {
      AllBacked(fate.possible, Lasting(fate))
    }

    /** The store is backed, and knows of every catalog that a power loss may leave. */
    ghost predicate Sound()
      reads this
    {
      Backed() && (!uncertain ==> fate.possible == {catalog})
    }

    /** A first start: the empty catalog is on disk. */
    constructor ()
      ensures Valid() && Sound() && !uncertain && staging.None?
      ensures catalog == Catalog(0, [], [], []) && objects == map[] && pins == map[] && held == multiset{}
      ensures fate == Fate({catalog}, {}, {}, {}, [catalog])
    {
      var empty := Catalog(0, [], [], []);
      catalog, onDisk, uncertain, staging, pins, objects := empty, empty, false, None, map[], map[];
      held := multiset{};
      fate := Fate({empty}, {}, {}, {}, [empty]);
    }

    // ----- The outside world -----

    /** A power loss, and a start from what it left. */
    method PowerLoss(survivor: Catalog, left: map<Digest, string>)
      requires Valid()
      requires survivor in fate.possible
      requires forall d :: d in fate.solid ==> Intact(left, d)
      requires forall d :: d in fate.damaged ==> d in left
      modifies this
      ensures Valid() && !uncertain && staging.None? && catalog == survivor && objects == left && pins == map[]
      ensures fate == Synced(Fate({survivor}, {}, {}, {}, [survivor]), left)
      ensures old(Backed()) ==> Sound()
      ensures old(Backed()) ==> forall r :: r in catalog.records ==>
        Verified(objects, r) || (r.sha256 in objects && r.sha256 in old(fate.damaged))
    {
      hide Consistent, AllBacked, Chain, IntactOnes;
      PowerLossKeeps(catalog, objects, fate, survivor, left);
      catalog, onDisk, uncertain, staging, pins, objects := survivor, survivor, false, None, map[], left;
      held := multiset{};
      fate := Synced(Fate({survivor}, {}, {}, {}, [survivor]), left);
    }

    /** A restart of the process alone: the store reads the catalog that is there.
        It stays sound exactly if that is all a power loss may leave. */
    method Restart()
      requires Valid()
      modifies this
      ensures Valid() && !uncertain && staging.None? && pins == map[]
      ensures catalog == old(catalog) && objects == old(objects) && fate == old(fate).(safe := {})
      ensures Backed() == old(Backed())
      ensures old(Backed()) ==> (Sound() <==> old(fate.possible) == {catalog})
    {
      hide Consistent, AllBacked, IntactOnes;
      SameFate(catalog, objects, fate, fate.(safe := {}));
      catalog, uncertain, staging, pins := onDisk, false, None, map[];
      held := multiset{};
      fate := fate.(safe := {});
    }

    /** Somebody else overwrites an object. */
    method Damage(d: Digest, content: string)
      requires Valid() && d in objects && Sha256(content) != d
      modifies this`objects, this`fate
      ensures Valid() && objects == old(objects)[d := content]
      ensures fate == Damaged(old(fate), d)
      ensures old(Backed()) ==> Backed()
    {
      hide Consistent, AllBacked, IntactOnes, Pinned;
      DamageKeeps(catalog, objects, fate, d, content);
      PinnedStill(objects, objects[d := content], pins, held);
      objects := objects[d := content];
      fate := Damaged(fate, d);
      if old(Backed()) {
        MoreBacked(fate.possible, old(Lasting(fate)), Lasting(fate));
      }
    }

    // ----- Pins -----

    /** Pins an intact object; one that is sure to last stays so while it is pinned. */
    method Pin(d: Digest) returns (ok: bool)
      requires Valid()
      modifies this`pins, this`held, this`fate
      ensures Valid()
      ensures ok <==>
        Intact(objects, d) && |objects[d]| <= MAX_OBJECT && (d in old(pins) ==> old(pins)[d] < MAX_REVISION)
      ensures held == if ok then old(held) + multiset{d} else old(held)
      ensures !ok ==> pins == old(pins)
      ensures fate == old(fate).(safe := if ok && d in Lasting(old(fate)) then old(fate).safe + {d} else old(fate).safe)
    {
      hide Consistent, Pinned, IntactOnes;
      ok := false;
      if d in objects && |objects[d]| <= MAX_OBJECT && Sha256(objects[d]) == d {
        var count := if d in pins then pins[d] else 0;
        if count < MAX_REVISION {
          PinKeeps(objects, pins, held, d);
          pins := pins[d := count + 1];
          held := held + multiset{d};
          if d in Lasting(fate) {
            SameFate(catalog, objects, fate, fate.(safe := fate.safe + {d}));
            fate := fate.(safe := fate.safe + {d});
          }
          ok := true;
        }
      }
    }

    /** Drops a pin that is held. */
    method Unpin(d: Digest)
      requires Valid() && d in held
      modifies this`pins, this`held, this`fate
      ensures Valid() && held == old(held) - multiset{d}
      ensures fate == old(fate).(safe := if d in pins then old(fate).safe else old(fate).safe - {d})
    {
      hide Consistent, Pinned, IntactOnes;
      UnpinKeeps(objects, pins, held, d);
      pins := pins[d := pins[d] - 1];
      held := held - multiset{d};
      if pins[d] == 0 {
        pins := pins - {d};
        SameFate(catalog, objects, fate, fate.(safe := fate.safe - {d}));
        fate := fate.(safe := fate.safe - {d});
      }
    }

    // ----- Objects -----

    /** Reserves room for one preparation.  Only a complete collection, whose sync
        made every object last that is left, lets it start. */
    method BeginStaging(reserve: nat, space: bool, stop: nat, synced: bool) returns (ok: bool)
      requires Valid()
      modifies this`objects, this`fate, this`staging
      ensures Valid()
      ensures ok ==>
        !uncertain && old(staging).None? && 1 <= reserve <= MAX_OBJECT && synced && space && staging == Some(reserve)
      ensures !uncertain && old(staging).None? && 1 <= reserve <= MAX_OBJECT && synced && space && |old(objects)| <= stop ==> ok
      ensures !ok ==> staging == old(staging)
      ensures ok ==> IntactOnes(objects) == fate.solid && fate.damaged == objects.Keys - fate.solid
      ensures forall d :: d in objects ==> d in old(objects) && objects[d] == old(objects)[d]
      ensures forall d :: d in old(objects) && Kept(catalog, pins, d) ==> d in objects
      ensures fate.possible == old(fate.possible) && fate.safe == old(fate.safe) && fate.log == old(fate.log)
      ensures old(Sound()) ==> Sound()
    {
      hide Consistent, Pinned, AllBacked, Kept, IntactOnes;
      ok := false;
      if uncertain || staging.Some? || !(1 <= reserve <= MAX_OBJECT) {
        return;
      }
      var done := CollectOrphans(stop, synced);
      if done && space {
        staging := Some(reserve);
        ok := true;
      }
    }

    /** Gives a preparation up. */
    method Discard()
      requires Valid() && staging.Some?
      modifies this`staging
      ensures Valid() && staging.None?
    {
      staging := None;
    }

    /** Ends a preparation by installing its verified bytes, without selecting them.
        What it reports as installed outlasts a power loss. */
    method InstallObject(meta: Record, staged: string, io: InstallIo) returns (ok: bool)
      requires Valid() && staging.Some?
      modifies this`objects, this`fate, this`staging
      ensures Valid() && staging.None?
      ensures ok <==>
        && old(Staged(meta, staged)) && io.Moved?
        && (Verified(old(objects), meta) || (old(Replaceable(meta)) && io.kept && io.cleaned))
      ensures var placed := old(Staged(meta, staged)) && io.Moved? && old(Replaceable(meta));
        && objects == (if placed then old(objects)[meta.sha256 := staged] else old(objects))
        && fate == (if placed then Placed(old(fate), objects, io.kept) else old(fate))
      ensures ok ==> Verified(objects, meta) && meta.sha256 in fate.solid
      ensures Lasting(old(fate)) <= Lasting(fate)
      ensures old(Backed()) ==> Backed()
    {
      hide Consistent, AllBacked, Pinned;
      ok := false;
      var reserved := staging.value;
      staging := None;
      if uncertain || !ValidRecord(meta) || meta.bytes > reserved { return; }
      if |staged| != meta.bytes || Sha256(staged) != meta.sha256 || io.InstallStopped? { return; }
      var d := meta.sha256;
      if Verified(objects, meta) {
        assert d in IntactOnes(objects);
        ok := true;
      } else {
        if d in objects && !Selects(d) { return; }
        assert d in objects ==> !Intact(objects, d);
        PlaceKeeps(catalog, objects, fate, d, io.kept);
        PinnedStill(objects, objects[d := staged], pins, held);
        objects := objects[d := staged];
        fate := Placed(fate, objects, io.kept);
        if old(Backed()) {
          MoreBacked(fate.possible, old(Lasting(fate)), Lasting(fate));
        }
        ok := io.kept && io.cleaned;
      }
    }

    predicate Selects(d: Digest)
      reads this
    {
      exists i :: 0 <= i < |catalog.records| && catalog.records[i].sha256 == d
    }

    /** The staged bytes are those of a valid record, within their reservation. */
    predicate Staged(meta: Record, staged: string)
      reads this
    {
      && !uncertain && ValidRecord(meta) && staging.Some? && meta.bytes <= staging.value
      && |staged| == meta.bytes && Sha256(staged) == meta.sha256
    }

    /** There is no such object yet, or a selected one is to be repaired. */
    predicate Replaceable(meta: Record)
      reads this
    {
      && !Verified(objects, meta)
      && (meta.sha256 in objects ==>
            exists i :: 0 <= i < |catalog.records| && catalog.records[i].sha256 == meta.sha256)
    }

    // ----- Commits -----

    /** Writes the catalog and renames it into place: the one commit point. */
    method CommitCatalog(candidate: Catalog, io: CommitIo) returns (r: Outcome)
      requires Valid() && !uncertain
      requires Sized(candidate.records) && Revised(catalog, candidate)
      modifies this`catalog, this`onDisk, this`uncertain, this`fate
      ensures Valid()
      ensures r ==
        if !ValidCatalog(candidate) || io.CommitStopped? then Refused else if io.synced then Durable else CommittedUncertain
      ensures r.Refused? ==> catalog == old(catalog) && !uncertain && fate == old(fate)
      ensures !r.Refused? ==> catalog == candidate && uncertain == r.CommittedUncertain?
      ensures !r.Refused? ==> fate == Committed(old(fate), candidate, io.synced)
      ensures !r.Refused? && old(Backed()) ==> (Sound() <==> RecordsBacked(candidate.records, Lasting(fate)))
    {
      hide Consistent, Pinned, ValidCatalog, Revised, AllBacked, RecordsBacked, IntactOnes;
      if !ValidCatalog(candidate) || io.CommitStopped? {
        return Refused;
      }
      CommitKeeps(catalog, objects, fate, candidate, io.synced);
      onDisk := candidate;
      catalog := candidate;
      fate := Committed(fate, candidate, io.synced);
      uncertain := !io.synced;
      r := if uncertain then CommittedUncertain else Durable;
    }

    /** Evicts until the slots suffice. */
    method TrimPrepared(records: seq<Record>, refs: set<nat>, retain: set<nat>) returns (t: Option<seq<Record>>)
      ensures t == Trimmed(records, refs, pins.Keys, retain)
    {
      var left := records;
      while |Free(left, refs)| > SLOTS
        invariant Trimmed(left, refs, pins.Keys, retain) == Trimmed(records, refs, pins.Keys, retain)
        decreases |left|
      {
        var s := Candidates(left, refs, pins.Keys, retain);
        if s == [] {
          return None;
        }
        left := Dropped(left, Oldest(s).fingerprint);
      }
      t := Some(left);
    }

    /** Checks each record of a batch, and that no two share a fingerprint. */
    method CheckBatch(batch: seq<Record>) returns (ok: bool, unique: set<nat>)
      ensures ok <==>
        Unique(batch) && forall i :: 0 <= i < |batch| ==> ValidRecord(batch[i]) && Verified(objects, batch[i])
      ensures ok ==> unique == Fingerprints(batch)
    {
      unique := {};
      for k := 0 to |batch|
        invariant unique == set i | 0 <= i < k :: batch[i].fingerprint
        invariant forall i, j :: 0 <= i < j < k ==> batch[i].fingerprint != batch[j].fingerprint
        invariant forall i :: 0 <= i < k ==> ValidRecord(batch[i]) && Verified(objects, batch[i])
      {
        if !ValidRecord(batch[k]) || batch[k].fingerprint in unique || !Verified(objects, batch[k]) {
          return false, unique;
        }
        unique := unique + {batch[k].fingerprint};
      }
      ok := true;
    }

    /** Commits a selection of the current references. */
    method CommitSelection(candidate: Catalog, io: CommitIo) returns (r: Outcome)
      requires Valid() && !uncertain
      requires Sized(candidate.records) && candidate.revision == catalog.revision
      modifies this`catalog, this`onDisk, this`uncertain, this`fate
      ensures Valid()
      ensures var b := Bumped(old(catalog), candidate);
        && (r == if !ValidCatalog(b) || io.CommitStopped? then Refused else if io.synced then Durable else CommittedUncertain)
        && (!r.Refused? ==> catalog == b && fate == Committed(old(fate), b, io.synced))
      ensures r.Refused? ==> catalog == old(catalog) && !uncertain && fate == old(fate)
      ensures !r.Refused? ==> uncertain == r.CommittedUncertain?
      ensures !r.Refused? && old(Backed()) ==> (Sound() <==> RecordsBacked(candidate.records, Lasting(fate)))
    {
      hide Consistent, Pinned, Revised, RecordsBacked, AllBacked, Sized, IntactOnes;
      var b := Bumped(catalog, candidate);
      if b.revision > MAX_REVISION {
        return Refused;
      }
      r := CommitCatalog(b, io);
    }

    /** Replaces the selections of a batch in one step.  It commits exactly if the
        revision is the expected one, every object is verified and the trimmed
        catalog is valid.  It is then sound exactly if the batch's objects outlast a
        power loss, as those do that were installed and pinned before. */
    method CommitBatch(batch: seq<Record>, statuses: seq<(nat, Status)>, expected: nat,
                       io: CommitIo) returns (r: Outcome)
      requires Valid()
      modifies this`catalog, this`onDisk, this`uncertain, this`fate
      ensures Valid()
      ensures !r.Refused? <==>
        && !old(uncertain) && old(catalog).revision == expected && BatchFits(objects, batch, statuses)
        && Target(old(catalog), batch, statuses, pins.Keys).Some?
        && ValidCatalog(Bumped(old(catalog), old(catalog).(records := Target(old(catalog), batch, statuses, pins.Keys).value)))
        && io.Renamed?
      ensures r.Refused? ==> catalog == old(catalog) && uncertain == old(uncertain) && fate == old(fate)
      ensures !r.Refused? ==>
        && catalog == Bumped(old(catalog), old(catalog).(records := Target(old(catalog), batch, statuses, pins.Keys).value))
        && fate == Committed(old(fate), catalog, io.synced)
        && uncertain == !io.synced == r.CommittedUncertain?
      ensures !r.Refused? && old(Backed()) ==> (Sound() <==> RecordsBacked(batch, Lasting(fate)))
      ensures old(Sound()) && RecordsBacked(batch, fate.safe) ==> Sound()
    {
      hide Consistent, Pinned, Revised, Choices, ValidCatalog, ValidRecord, Verified, Unique, Trimmed, Replaced,
        RecordsBacked,
        Sized, From, AllBacked, IntactOnes;
      SafeIsBacked(batch, fate);
      if uncertain || catalog.revision != expected || |batch| > SLOTS {
        return Refused;
      }
      var ok, unique := CheckBatch(batch);
      if !ok || |statuses| > SLOTS {
        return Refused;
      }
      var candidate := ApplyStatuses(Replaced(catalog.records, batch), statuses);
      var t := TrimPrepared(candidate, References(catalog), unique);
      if t.None? {
        return Refused;
      }
      Selected(catalog, objects, fate);
      TargetIsFrom(catalog, batch, statuses, pins.Keys);
      BatchBacked(catalog, batch, objects, Lasting(fate), t.value);
      r := CommitSelection(catalog.(records := t.value), io);
    }

    /** The configuration owns the references; naming others does not make a new
        revision by itself. */
    method SetReferences(current: seq<nat>, previous: seq<nat>, io: CommitIo) returns (r: Outcome)
      requires Valid()
      modifies this`catalog, this`onDisk, this`uncertain, this`fate
      ensures Valid()
      ensures !r.Refused? <==>
        && !old(uncertain) && ValidReferences(current) && ValidReferences(previous) && io.Renamed?
        && Trimmed(old(catalog).records, NamesIn(current + previous), pins.Keys, {}).Some?
        && ValidCatalog(Bumped(old(catalog), Catalog(old(catalog).revision, current, previous,
                                                     Trimmed(old(catalog).records, NamesIn(current + previous),
                                                             pins.Keys, {}).value)))
      ensures !r.Refused? ==>
        && catalog.current == current && catalog.previous == previous
        && Trimmed(old(catalog).records, NamesIn(current + previous), pins.Keys, {}) == Some(catalog.records)
        && Revised(old(catalog), catalog) && fate == Committed(old(fate), catalog, io.synced)
        && uncertain == !io.synced == r.CommittedUncertain?
      ensures r.Refused? ==> catalog == old(catalog) && uncertain == old(uncertain) && fate == old(fate)
      ensures !r.Refused? && old(Backed()) ==> Sound()
    {
      hide Consistent, Pinned, Revised, Choices, ValidCatalog, Unique, Trimmed, RecordsBacked, Sized, AllBacked,
        IntactOnes;
      if uncertain || !ValidReferences(current) || !ValidReferences(previous) {
        return Refused;
      }
      var t := TrimPrepared(catalog.records, NamesIn(current + previous), {});
      if t.None? {
        return Refused;
      }
      Selected(catalog, objects, fate);
      TrimKeeps(catalog.records, NamesIn(current + previous), pins.Keys, {});
      FewerBacked(t.value, catalog.records, Lasting(fate));
      r := CommitSelection(Catalog(catalog.revision, current, previous, t.value), io);
    }

    /** Stores an attempt without touching any choice or the revision. */
    method UpdateStatus(fingerprint: nat, status: Status, io: CommitIo) returns (r: Outcome)
      requires Valid()
      modifies this`catalog, this`onDisk, this`uncertain, this`fate
      ensures Valid()
      ensures !r.Refused? <==>
        && !old(uncertain) && io.Renamed?
        && (exists r :: r in old(catalog).records && r.fingerprint == fingerprint)
        && ValidCatalog(old(catalog).(records := WithStatus(old(catalog).records, fingerprint, status)))
      ensures !r.Refused? ==>
        && catalog == old(catalog).(records := catalog.records)
        && |catalog.records| == |old(catalog).records|
        && (forall i :: 0 <= i < |catalog.records| ==>
              var r := old(catalog).records[i];
              catalog.records[i] == if r.fingerprint == fingerprint then r.(status := status) else r)
        && Choices(catalog.records) == Choices(old(catalog).records)
        && fate == Committed(old(fate), catalog, io.synced)
        && uncertain == !io.synced == r.CommittedUncertain?
      ensures r.Refused? ==> catalog == old(catalog) && uncertain == old(uncertain) && fate == old(fate)
      ensures !r.Refused? && old(Backed()) ==> Sound()
    {
      hide Consistent, Pinned, Choices, ValidCatalog, Unique, RecordsBacked, Sized, From, WithStatus, AllBacked,
        IntactOnes;
      if uncertain || !Names(catalog.records, fingerprint) {
        return Refused;
      }
      var records := WithStatus(catalog.records, fingerprint, status);
      Selected(catalog, objects, fate);
      StatusOfOne(catalog.records, fingerprint, status);
      SameChoices(catalog.records, records);
      FromSame(records, catalog.records);
      BackedFrom(records, catalog.records, Lasting(fate));
      r := CommitCatalog(catalog.(records := records), io);
    }

    /** Settles an uncertain commit: the catalog that is there is the one to keep. */
    method ReconcileSync(synced: bool) returns (ok: bool)
      requires Valid()
      modifies this`catalog, this`uncertain, this`fate
      ensures Valid() && ok == synced && catalog == old(catalog)
      ensures ok ==> !uncertain && fate == old(fate).(possible := {catalog})
      ensures !ok ==> uncertain == old(uncertain) && fate == old(fate)
      ensures ok && old(Backed()) ==> Sound()
    {
      hide Chain, ValidCatalog, Sized, RecordsBacked, IntactOnes, Pinned;
      if !synced {
        return false;
      }
      catalog := onDisk;
      uncertain := false;
      fate := fate.(possible := {catalog});
      ok := true;
    }

    /** How the service opens a store: it reads what is there and commits the
        references of the configuration at once.  Whatever was uncertain before, a
        store that opens is sound. */
    method Reopen(current: seq<nat>, previous: seq<nat>, io: CommitIo) returns (r: Outcome)
      requires Valid()
      modifies this
      ensures Valid() && objects == old(objects)
      ensures !r.Refused? && old(Backed()) ==> Sound()
      ensures old(Backed()) ==> Backed()
    {
      hide Consistent, Pinned, AllBacked, IntactOnes, Revised, ValidCatalog, Trimmed;
      Restart();
      r := SetReferences(current, previous, io);
    }

    /** How the service begins an operation, on a store it opens for that or has
        open: it settles what is there, then commits the references. */
    method SyncRoots(open: bool, current: seq<nat>, previous: seq<nat>, synced: bool, io: CommitIo)
      returns (ok: bool, r: Outcome)
      requires Valid()
      modifies this
      ensures Valid() && objects == old(objects)
      ensures open ==> pins == old(pins)
      ensures ok && old(Backed()) ==> Sound()
      ensures old(Backed()) ==> Backed()
      ensures ok <==> synced && !r.Refused?
    {
      hide Consistent, Pinned, AllBacked, IntactOnes, Revised, ValidCatalog, Trimmed;
      if !open {
        Restart();
      }
      ok := ReconcileSync(synced);
      if !ok {
        return false, Refused;
      }
      r := SetReferences(current, previous, io);
      ok := !r.Refused?;
    }

    // ----- Collection -----

    /** Removes the intact objects that neither the catalog nor a pin names.  An
        input or output error after `stop` files leaves the rest in place.  A
        complete collection makes every object last that is left, and keeps the
        store backed exactly if every object that a power loss may ask for is
        selected or pinned; a sound store stays sound. */
    method CollectOrphans(stop: nat, synced: bool) returns (ok: bool)
      requires Valid()
      modifies this`objects, this`fate
      ensures Valid()
      ensures ok ==> !uncertain && synced
      ensures !uncertain && synced && |old(objects).Keys| <= stop ==> ok
      ensures uncertain ==> objects == old(objects) && fate == old(fate)
      ensures fate == (if ok then Synced(old(fate), objects) else Remaining(old(fate), objects))
      ensures forall d :: d in objects ==> d in old(objects) && objects[d] == old(objects)[d]
      ensures forall d :: d in old(objects) && Kept(catalog, pins, d) ==> d in objects
      ensures ok ==> forall d :: d in objects && Intact(objects, d) && |objects[d]| <= MAX_OBJECT ==>
        d in pins || exists r :: r in catalog.records && r.sha256 == d
      ensures ok && old(Backed()) ==>
        (Backed() <==> forall c, r :: c in fate.possible && r in c.records && Intact(old(objects), r.sha256) ==>
                         Kept(catalog, pins, r.sha256))
      ensures old(Sound()) ==> Sound()
    {
      hide Consistent, Pinned, AllBacked, Kept, IntactOnes;
      ok := false;
      LastingIsThere(catalog, objects, fate);
      if uncertain {
        assert fate == Remaining(fate, objects);
        return;
      }
      ghost var before := objects;
      var complete := RemoveOrphans(stop);
      ok := complete && synced;
      KeptMeans(catalog, pins);
      FewerIntact(before, objects, old(fate), fate);
      PinsKept(catalog, pins, before, objects, old(fate), fate, held);
      if ok {
        SyncKeeps(catalog, objects, fate);
        CollectedBacked(catalog, pins, before, objects, old(fate));
        fate := Synced(fate, objects);
      }
      SoundKept(catalog, pins, before, objects, old(fate), fate);
    }

    /** Looks at up to `stop` files and removes those that may go. */
    method RemoveOrphans(stop: nat) returns (complete: bool)
      requires Consistent(catalog, objects, fate) && Pinned(objects, pins, held)
      modifies this`objects, this`fate
      ensures Consistent(catalog, objects, fate) && Pinned(objects, pins, held)
      ensures |old(objects).Keys| <= stop ==> complete
      ensures fate == Remaining(old(fate), objects)
      ensures forall d :: d in objects ==> d in old(objects) && objects[d] == old(objects)[d]
      ensures forall d :: d in old(objects) && Kept(catalog, pins, d) ==> d in objects
      ensures forall d :: d in old(objects) && d !in objects ==> Intact(old(objects), d)
      ensures complete ==> forall d :: d in objects && Intact(objects, d) && |objects[d]| <= MAX_OBJECT ==>
        Kept(catalog, pins, d)
    {
      hide Consistent, Pinned, Kept, Remaining, Gone;
      LastingIsThere(catalog, objects, fate);
      AllRemain(fate, objects);
      ghost var before := objects;
      var todo, seen := objects.Keys, 0;
      while todo != {} && seen < stop
        invariant Consistent(catalog, objects, fate) && Pinned(objects, pins, held)
        invariant todo <= objects.Keys && seen + |todo| == |before.Keys|
        invariant forall d :: d in objects ==> d in before && objects[d] == before[d]
        invariant forall d :: d in before && Kept(catalog, pins, d) ==> d in objects
        invariant forall d :: d in objects && d !in todo && Intact(objects, d) && |objects[d]| <= MAX_OBJECT ==>
          Kept(catalog, pins, d)
        invariant fate == Remaining(old(fate), objects)
        invariant forall d :: d in before && d !in objects ==> Intact(before, d)
        decreases todo
      {
        var d :| d in todo;
        todo, seen := todo - {d}, seen + 1;
        if !Kept(catalog, pins, d) && |objects[d]| <= MAX_OBJECT && Sha256(objects[d]) == d {
          RemoveKeeps(catalog, objects, fate, d);
          OneLessRemains(old(fate), objects, d);
          UnpinnedRemoved(objects, pins, held, d, catalog);
          objects := objects - {d};
          fate := Gone(fate, d);
        }
      }
      complete := todo == {};
    }

    /** Lets prepared records go that nothing needs, then their objects. */
    method Collect(now: nat, pressure: bool, full: bool, io: CommitIo, stop: nat, synced: bool) returns (ok: bool)
      requires Valid()
      modifies this`catalog, this`onDisk, this`uncertain, this`fate, this`objects
      ensures Valid()
      ensures old(uncertain) || full ==> !ok && catalog == old(catalog) && objects == old(objects) && fate == old(fate)
      ensures ok && !uncertain ==>
        && catalog.records == Outliving(old(catalog).records, old(catalog), pins.Keys, now, pressure)
        && (forall r :: r in catalog.records <==>
              && r in old(catalog).records
              && (|| r.fingerprint in References(old(catalog)) || r.sha256 in pins
                  || (!pressure && now < r.preparedAt + 86400)))
        && (forall d :: d in objects && Intact(objects, d) && |objects[d]| <= MAX_OBJECT ==>
              d in pins || exists r :: r in catalog.records && r.sha256 == d)
      ensures ok && uncertain ==> objects == old(objects)
      ensures Revised(old(catalog), catalog) || catalog == old(catalog)
      ensures forall d :: d in old(objects) && d in pins ==> d in objects
      ensures catalog != old(catalog) ==> fate.possible == Committed(old(fate), catalog, !uncertain).possible
      ensures catalog == old(catalog) ==> fate.possible == old(fate.possible)
      ensures fate.safe == old(fate.safe) && fate.safe <= Lasting(fate)
      ensures fate.log == old(fate.log) + (if catalog == old(catalog) then [] else [catalog])
      ensures old(Sound()) ==> Sound()
    {
      hide Consistent, Pinned, Revised, Choices, ValidCatalog, Unique, RecordsBacked, Sized, AllBacked, IntactOnes;
      ok := false;
      if uncertain || full {
        return;
      }
      var records := Outliving(catalog.records, catalog, pins.Keys, now, pressure);
      if |records| != |catalog.records| {
        Selected(catalog, objects, fate);
        FewerBacked(records, catalog.records, Lasting(fate));
        MovedOn(catalog, records);
        if catalog.revision >= MAX_REVISION {
          return;
        }
        var r := CommitCatalog(catalog.(revision := catalog.revision + 1, records := records), io);
        if r.Refused? {
          return;
        }
        if r.CommittedUncertain? {
          return true;
        }
      }
      ok := CollectOrphans(stop, synced);
    }
  }

  lemma FewerBacked(t: seq<Record>, base: seq<Record>, lasting: set<Digest>)
    requires forall r :: r in t ==> r in base
    ensures Sized(base) ==> Sized(t)
    ensures RecordsBacked(base, lasting) ==> RecordsBacked(t, lasting)
  {
  }

  lemma SafeIsBacked(batch: seq<Record>, fate: Fate)
    requires fate.safe <= Lasting(fate)
    ensures RecordsBacked(batch, fate.safe) ==> RecordsBacked(batch, Lasting(fate))
  {
  }

  lemma SameFate(catalog: Catalog, objects: map<Digest, string>, fate: Fate, fate': Fate)
    requires Consistent(catalog, objects, fate) && fate' == fate.(safe := fate'.safe)
    ensures Consistent(catalog, objects, fate')
  {
  }

  lemma PinnedStill(objects: map<Digest, string>, objects': map<Digest, string>, pins: map<Digest, nat>,
                    held: multiset<Digest>)
    requires Pinned(objects, pins, held) && objects.Keys <= objects'.Keys
    ensures Pinned(objects', pins, held)
  {
  }

  lemma MovedOn(c: Catalog, records: seq<Record>)
    requires Unique(c.records) && |records| < |c.records|
    requires (forall r :: r in records ==> r in c.records) && exists r :: r in c.records && r !in records
    ensures Revised(c, c.(revision := c.revision + 1, records := records))
  {
    FewerChoices(c.records, records);
  }

  lemma LastingIsThere(catalog: Catalog, objects: map<Digest, string>, fate: Fate)
    requires Consistent(catalog, objects, fate)
    ensures Lasting(fate) <= objects.Keys
  {
  }

  lemma UnpinnedRemoved(objects: map<Digest, string>, pins: map<Digest, nat>, held: multiset<Digest>, d: Digest,
                        c: Catalog)
    requires Pinned(objects, pins, held) && !Kept(c, pins, d)
    ensures Pinned(objects - {d}, pins, held)
  {
  }

  /** What outlasts a power loss of the objects that were left. */
  ghost function Remaining(fate: Fate, objects: map<Digest, string>): Fate {
    fate.(solid := fate.solid * objects.Keys, damaged := fate.damaged * objects.Keys)
  }

  lemma AllRemain(fate: Fate, objects: map<Digest, string>)
    requires Lasting(fate) <= objects.Keys
    ensures Remaining(fate, objects) == fate
  {
    assert fate.solid * objects.Keys == fate.solid && fate.damaged * objects.Keys == fate.damaged;
  }

  lemma OneLessRemains(fate: Fate, objects: map<Digest, string>, d: Digest)
    ensures Gone(Remaining(fate, objects), d) == Remaining(fate, objects - {d})
  {
    assert (objects - {d}).Keys == objects.Keys - {d};
    assert fate.solid * objects.Keys - {d} == fate.solid * (objects.Keys - {d});
    assert fate.damaged * objects.Keys - {d} == fate.damaged * (objects.Keys - {d});
  }

  /** Removing objects leaves every other one as sure to last as before. */
  lemma FewerIntact(before: map<Digest, string>, objects: map<Digest, string>, fate: Fate, fate': Fate)
    requires fate' == Remaining(fate, objects)
    requires forall d :: d in objects ==> d in before && objects[d] == before[d]
    ensures IntactOnes(before) <= fate.solid ==> IntactOnes(objects) <= fate'.solid
  {
  }

  /** Pinned objects stay, as sure to last as they were. */
  lemma PinsKept(catalog: Catalog, pins: map<Digest, nat>, before: map<Digest, string>, objects: map<Digest, string>,
                 fate: Fate,
                 fate': Fate, held: multiset<Digest>)
    requires Pinned(objects, pins, held) && fate' == Remaining(fate, objects)
    requires fate.safe <= pins.Keys && fate.safe <= Lasting(fate)
    ensures fate'.safe <= Lasting(fate')
  {
  }

  /** A sound store that loses only what nothing names stays backed. */
  lemma SoundKept(catalog: Catalog, pins: map<Digest, nat>, before: map<Digest, string>, objects: map<Digest, string>,
                  fate: Fate,
                  fate': Fate)
    requires forall d :: d in before && Kept(catalog, pins, d) ==> d in objects
    requires Lasting(fate) <= before.Keys && Lasting(Remaining(fate, objects)) <= Lasting(fate')
    requires fate'.possible == fate.possible
    ensures fate.possible == {catalog} && AllBacked(fate.possible, Lasting(fate)) ==>
      AllBacked(fate'.possible, Lasting(fate'))
  {
    if fate.possible == {catalog} && AllBacked(fate.possible, Lasting(fate)) {
      forall r | r in catalog.records ensures r.sha256 in Lasting(fate') {
        assert RecordsBacked(catalog.records, Lasting(fate));
        assert Kept(catalog, pins, r.sha256) by {
          var i :| 0 <= i < |catalog.records| && catalog.records[i] == r;
        }
      }
    }
  }

  /** After a complete collection an object is left exactly if it was selected,
      pinned or not what its name says. */
  lemma CollectedBacked(catalog: Catalog, pins: map<Digest, nat>, before: map<Digest, string>, objects: map<Digest,
                        string>, fate: Fate)
    requires Consistent(catalog, before, fate)
    requires forall d :: d in objects ==> d in before && objects[d] == before[d]
    requires forall d :: d in before && Kept(catalog, pins, d) ==> d in objects
    requires forall d :: d in objects && Intact(objects, d) && |objects[d]| <= MAX_OBJECT ==> Kept(catalog, pins, d)
    requires forall d :: d in before && d !in objects ==> Intact(before, d)
    ensures AllBacked(fate.possible, Lasting(fate)) ==>
      (AllBacked(fate.possible, objects.Keys) <==>
       forall c, r :: c in fate.possible && r in c.records && Intact(before, r.sha256) ==> Kept(catalog, pins, r.sha256))
  {
    hide Chain, Kept;
    if AllBacked(fate.possible, Lasting(fate)) {
      forall c, r | c in fate.possible && r in c.records
        ensures r.sha256 in objects <==> (Intact(before, r.sha256) ==> Kept(catalog, pins, r.sha256))
      {
        assert RecordsBacked(c.records, Lasting(fate));
        RecordShort(c, r);
      }
    }
  }

  lemma RecordShort(c: Catalog, r: Record)
    requires ValidCatalog(c) && Sized(c.records) && r in c.records
    ensures |r.sha256.content| <= MAX_OBJECT
  {
    var i :| 0 <= i < |c.records| && c.records[i] == r;
    assert ValidRecord(c.records[i]);
  }

  lemma Selected(c: Catalog, objects: map<Digest, string>, fate: Fate)
    requires Consistent(c, objects, fate)
    ensures Unique(c.records) && Sized(c.records)
    ensures AllBacked(fate.possible, Lasting(fate)) ==> RecordsBacked(c.records, Lasting(fate))
  {
    hide RecordsBacked, Sized, Chain;
  }

  method ApplyStatuses(records: seq<Record>, statuses: seq<(nat, Status)>) returns (s: seq<Record>)
    ensures s == WithStatuses(records, statuses, |statuses|)
  {
    s := records;
    for k := 0 to |statuses|
      invariant s == WithStatuses(records, statuses, k)
    {
      s := WithStatus(s, statuses[k].0, statuses[k].1);
    }
  }

  // ----- A run that is not sound -----

  const FRESH := Status(None, None, 0, None, None)

  function Short(content: string): Record
    requires |content| == 1
  {
    Record(1, Sha256(content), 1, 1, Sha256(content), 0, FRESH)
  }

  lemma SoleRecord(c: Catalog, r: Record, pinned: set<Digest>)
    requires c.current == [] && c.previous == [] && ValidRecord(r) && |c.records| <= 1
    requires c.records == [] || c.records[0].fingerprint == r.fingerprint
    requires c.revision < MAX_REVISION
    ensures Target(c, [r], [], pinned) == Some([r])
    ensures ValidCatalog(Bumped(c, c.(records := [r])))
  {
    hide ValidRecord, Trimmed, Choices;
    SoleLeft(c.records, r);
    assert WithStatuses([r], [], 0) == [r];
    FreeOne(r, References(c));
    TrimOne(r, References(c), pinned, Fingerprints([r]));
  }

  lemma SoleLeft(records: seq<Record>, r: Record)
    requires |records| <= 1 && (records == [] || records[0].fingerprint == r.fingerprint)
    ensures Replaced(records, [r]) == [r]
  {
    assert [r][0].fingerprint == r.fingerprint;
    assert Names([r], r.fingerprint);
    assert Others(records, [r]) == [];
  }

  lemma FreeOne(r: Record, refs: set<nat>)
    ensures |Free([r], refs)| <= 1
  {
  }

  lemma TrimOne(r: Record, refs: set<nat>, pinned: set<Digest>, retain: set<nat>)
    ensures Trimmed([r], refs, pinned, retain) == Some([r])
  {
    FreeOne(r, refs);
  }

  /** Prepares, installs and selects one object in a store that holds at most one
      record. */
  method Choose(s: Store, content: string, io: CommitIo)
    requires |content| == 1 && s.Valid() && s.Sound() && !s.uncertain && s.staging.None? && io.Renamed?
    requires s.catalog == Catalog(s.catalog.revision, [], [], s.catalog.records) && |s.catalog.records| <= 1
    requires s.catalog.records == [] || s.catalog.records[0].fingerprint == 1
    requires s.catalog.revision < MAX_REVISION && (forall d :: d in s.objects ==> Intact(s.objects, d))
    modifies s
    ensures s.Valid() && s.Sound() && s.staging.None? && s.uncertain == !io.synced
    ensures s.catalog == Catalog(s.catalog.revision, [], [], [Short(content)])
    ensures s.catalog.revision <= old(s.catalog.revision) + 1
    ensures s.fate.possible == Committed(old(s.fate), s.catalog, io.synced).possible
    ensures Intact(s.objects, Sha256(content)) && forall d :: d in s.objects ==> Intact(s.objects, d)
    ensures forall d :: d in old(s.objects) && Kept(old(s.catalog), old(s.pins), d) ==> d in s.objects
  {
    hide Target, Consistent, ValidCatalog, Pinned, Revised, Choices, AllBacked, Kept, IntactOnes;
    var a := Short(content);
    var _ := s.BeginStaging(1, true, |s.objects.Keys|, true);
    assert forall d :: d in s.objects ==> Intact(s.objects, d);
    var _ := s.InstallObject(a, content, Moved(true, true));
    SoleRecord(s.catalog, a, s.pins.Keys);
    assert Sha256(content) in Lasting(s.fate);
    assert RecordsBacked([a], Lasting(s.fate));
    var _ := s.CommitBatch([a], [], s.catalog.revision, io);
  }

  /** A process that restarts after an uncertain commit trusts the catalog it
      reads: without a commit of its own first, its collection removes what the
      older catalog still needs. */
  method CollectsAfterUncertainRestart() returns (s: Store)
    ensures s.Valid() && !s.Backed() && !s.uncertain
  {
    hide Consistent, AllBacked, Pinned, IntactOnes, ValidCatalog;
    s := new Store();
    Choose(s, "a", Renamed(true));
    ghost var older := s.catalog;
    assert Kept(s.catalog, s.pins, Sha256("a")) by { assert s.catalog.records[0].sha256 == Sha256("a"); }
    Choose(s, "b", Renamed(false));
    assert older in s.fate.possible;
    s.Restart();
    var _ := s.CollectOrphans(|s.objects.Keys|, true);
    assert Short("a") in older.records && !Kept(s.catalog, s.pins, Sha256("a"));
  }
}
