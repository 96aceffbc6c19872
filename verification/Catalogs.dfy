/** Catalogs of subscription sources: which records a catalog may hold, which
    prepared records give way to newer ones, and when a revision moves on
    (src/filter_subscriptions/store.rs). */
module Catalogs {
  import opened Wrappers

  const MAX_OBJECT := 16 * 1024 * 1024
  const MAX_RULES := 5_000_000
  const MAX_REVISION := 0xFFFF_FFFF_FFFF_FFFF
  const PREPARED_TTL := 24 * 60 * 60
  /** The most records of a batch, of a reference list and outside all references. */
  const SLOTS := 16

  /** SHA-256 is taken to be free of collisions: a digest is its content. */
  datatype Digest = Sha256(content: string)

  datatype Status = Status(
    lastAttempt: Option<nat>, nextUpdate: Option<nat>, failures: nat, lastError: Option<string>, errorLine: Option<nat>)

  datatype Record = Record(
    fingerprint: nat, sha256: Digest, bytes: nat, rules: nat, validator: Digest, preparedAt: nat, status: Status)

  datatype Catalog = Catalog(revision: nat, current: seq<nat>, previous: seq<nat>, records: seq<Record>)

  predicate ValidRecord(r: Record) {
    && 1 <= r.bytes <= MAX_OBJECT
    && 1 <= r.rules <= MAX_RULES
    && r.validator == r.sha256
    && (r.status.lastError.Some? ==> |r.status.lastError.value| <= 512)
  }

  predicate ValidReferences(group: seq<nat>) {
    |group| <= SLOTS && forall i, j :: 0 <= i < j < |group| ==> group[i] != group[j]
  }

  predicate Unique(records: seq<Record>) {
    forall i, j :: 0 <= i < j < |records| ==> records[i].fingerprint != records[j].fingerprint
  }

  /** The revision is a 64-bit word. */
  predicate ValidCatalog(c: Catalog) {
    && c.revision <= MAX_REVISION
    && |c.records| <= 3 * SLOTS
    && ValidReferences(c.current)
    && ValidReferences(c.previous)
    && |Free(c.records, References(c))| <= SLOTS
    && (forall i :: 0 <= i < |c.records| ==> ValidRecord(c.records[i]))
    && Unique(c.records)
  }

  function References(c: Catalog): set<nat> {
    NamesIn(c.current + c.previous)
  }

  function NamesIn(group: seq<nat>): set<nat> {
    set f | f in group
  }

  /** The records that no reference names, in catalog order. */
  function Free(records: seq<Record>, refs: set<nat>): (r: seq<Record>)
    ensures forall x :: x in r <==> x in records && x.fingerprint !in refs
  {
    if records == [] then []
    else (if records[0].fingerprint in refs then [] else [records[0]]) + Free(records[1..], refs)
  }

  /** The digests each fingerprint selects. */
  function Choices(records: seq<Record>): (m: map<nat, Digest>)
    ensures forall f :: f in m <==> exists r :: r in records && r.fingerprint == f
  {
    if records == [] then map[]
    else
      var n := |records| - 1;
      assert records == records[..n] + [records[n]];
      Choices(records[..n])[records[n].fingerprint := records[n].sha256]
  }

  lemma {:induction false} ChoiceOf(records: seq<Record>, r: Record)
    requires Unique(records) && r in records
    ensures r.fingerprint in Choices(records) && Choices(records)[r.fingerprint] == r.sha256
  {
    var n := |records| - 1;
    assert records == records[..n] + [records[n]];
    if r != records[n] {
      ChoiceOf(records[..n], r);
    }
  }

  // ----- Trimming -----

  predicate Evictable(r: Record, refs: set<nat>, pinned: set<Digest>, retain: set<nat>) {
    r.fingerprint !in refs && r.sha256 !in pinned && r.fingerprint !in retain
  }

  /** The records that may give way. */
  function Candidates(records: seq<Record>, refs: set<nat>, pinned: set<Digest>, retain: set<nat>): (s: seq<Record>)
    ensures forall r :: r in s <==> r in records && Evictable(r, refs, pinned, retain)
  {
    if records == [] then []
    else (if Evictable(records[0], refs, pinned, retain) then [records[0]] else []) + Candidates(records[1..], refs, pinned, retain)
  }

  /** The records outside all references that may not give way. */
  function Stuck(records: seq<Record>, refs: set<nat>, pinned: set<Digest>, retain: set<nat>): (s: seq<Record>)
    ensures forall r :: r in s <==> r in records && r.fingerprint !in refs && !Evictable(r, refs, pinned, retain)
  {
    if records == [] then []
    else
      var rest := Stuck(records[1..], refs, pinned, retain);
      if records[0].fingerprint in refs || Evictable(records[0], refs, pinned,
                                                     retain) then rest else [records[0]] + rest
  }

  /** The first of the records prepared longest ago. */
  function Oldest(s: seq<Record>): (r: Record)
    requires s != []
    ensures r in s && forall x :: x in s ==> r.preparedAt <= x.preparedAt
  {
    if |s| == 1 then s[0]
    else
      var rest := Oldest(s[1..]);
      if s[0].preparedAt <= rest.preparedAt then s[0] else rest
  }

  function Dropped(records: seq<Record>, fingerprint: nat): (s: seq<Record>)
    ensures forall r :: r in s <==> r in records && r.fingerprint != fingerprint
    ensures |s| <= |records|
    ensures (exists r :: r in records && r.fingerprint == fingerprint) ==> |s| < |records|
  {
    if records == [] then []
    else (if records[0].fingerprint == fingerprint then [] else [records[0]]) + Dropped(records[1..], fingerprint)
  }

  /** Evicts the oldest evictable record until the slots suffice; nothing when
      they cannot. */
  function Trimmed(records: seq<Record>, refs: set<nat>, pinned: set<Digest>, retain: set<nat>): Option<seq<Record>>
    decreases |records|
  {
    if |Free(records, refs)| <= SLOTS then Some(records)
    else
      var s := Candidates(records, refs, pinned, retain);
      if s == [] then None else Trimmed(Dropped(records, Oldest(s).fingerprint), refs, pinned, retain)
  }

  lemma {:induction false} FreeSplits(records: seq<Record>, refs: set<nat>, pinned: set<Digest>, retain: set<nat>)
    ensures |Free(records, refs)| ==
      |Candidates(records, refs, pinned, retain)| + |Stuck(records, refs, pinned, retain)|
  {
    if records != [] {
      FreeSplits(records[1..], refs, pinned, retain);
    }
  }

  lemma {:induction false} DropAbsent(records: seq<Record>, fingerprint: nat)
    requires forall i :: 0 <= i < |records| ==> records[i].fingerprint != fingerprint
    ensures Dropped(records, fingerprint) == records
  {
    if records != [] {
      DropAbsent(records[1..], fingerprint);
    }
  }

  lemma {:induction false} DropUnique(records: seq<Record>, fingerprint: nat)
    requires Unique(records)
    ensures Unique(Dropped(records, fingerprint))
  {
    if records != [] {
      DropUnique(records[1..], fingerprint);
      var rest := Dropped(records[1..], fingerprint);
      forall j | 0 <= j < |rest| ensures rest[j].fingerprint != records[0].fingerprint {
        assert rest[j] in records[1..];
      }
    }
  }

  lemma StillUnique(records: seq<Record>, x: Record)
    requires Unique(records) && records != [] && x in records[1..]
    ensures records[0].fingerprint != x.fingerprint
  {
    var i :| 0 <= i < |records[1..]| && records[1..][i] == x;
    assert records[i + 1] == x;
  }

  /** Dropping a record that may give way leaves those that may not. */
  lemma {:induction false} DropKeepsStuck(records: seq<Record>, x: Record, refs: set<nat>, pinned: set<Digest>,
                                          retain: set<nat>)
    requires Unique(records) && x in records && Evictable(x, refs, pinned, retain)
    ensures Stuck(Dropped(records, x.fingerprint), refs, pinned, retain) == Stuck(records, refs, pinned, retain)
  {
    var rest := records[1..];
    if records[0] == x {
      DropAbsent(rest, x.fingerprint);
      assert Dropped(records, x.fingerprint) == rest;
    } else {
      assert x in rest;
      DropKeepsStuck(rest, x, refs, pinned, retain);
      assert Dropped(records, x.fingerprint) == [records[0]] + Dropped(rest, x.fingerprint) by {
        StillUnique(records, x);
      }
    }
  }

  /** Trimming fails exactly when the records that may not give way need more
      than the slots there are. */
  lemma {:induction false} TrimFailsIff(records: seq<Record>, refs: set<nat>, pinned: set<Digest>, retain: set<nat>)
    requires Unique(records)
    ensures Trimmed(records, refs, pinned, retain).None? <==> |Stuck(records, refs, pinned, retain)| > SLOTS
    ensures forall r :: r in Stuck(records, refs, pinned, retain) <==>
      r in records && r.fingerprint !in refs && (r.sha256 in pinned || r.fingerprint in retain)
    decreases |records|
  {
    FreeSplits(records, refs, pinned, retain);
    var s := Candidates(records, refs, pinned, retain);
    if |Free(records, refs)| > SLOTS && s != [] {
      var x := Oldest(s);
      DropUnique(records, x.fingerprint);
      DropKeepsStuck(records, x, refs, pinned, retain);
      TrimFailsIff(Dropped(records, x.fingerprint), refs, pinned, retain);
    }
  }

  /** What trimming keeps: every record that is referenced, pinned or retained,
      and of the others none older than one that gave way.  It stops as soon as
      the slots suffice. */
  lemma {:induction false} TrimKeeps(records: seq<Record>, refs: set<nat>, pinned: set<Digest>, retain: set<nat>)
    requires Unique(records) && Trimmed(records, refs, pinned, retain).Some?
    ensures var t := Trimmed(records, refs, pinned, retain).value;
      && Unique(t) && |Free(t, refs)| <= SLOTS
      && (forall r :: r in t ==> r in records)
      && (forall r :: r in records && r !in t ==>
            r.fingerprint !in refs && r.sha256 !in pinned && r.fingerprint !in retain)
      && (forall r, k :: r in records && r !in t && k in t ==>
            k.fingerprint in refs || k.sha256 in pinned || k.fingerprint in retain || r.preparedAt <= k.preparedAt)
      && (t != records ==> |Free(t, refs)| == SLOTS)
    decreases |records|
  {
    if |Free(records, refs)| > SLOTS {
      var s := Candidates(records, refs, pinned, retain);
      var x := Oldest(s);
      var rest := Dropped(records, x.fingerprint);
      DropUnique(records, x.fingerprint);
      OnlyOneDropped(records, x);
      FreeAfterDrop(records, x, refs);
      TrimKeeps(rest, refs, pinned, retain);
    }
  }

  lemma OnlyOneDropped(records: seq<Record>, x: Record)
    requires Unique(records) && x in records
    ensures forall r :: r in records && r !in Dropped(records, x.fingerprint) ==> r == x
  {
  }

  lemma {:induction false} FreeAfterDrop(records: seq<Record>, x: Record, refs: set<nat>)
    requires Unique(records) && x in records && x.fingerprint !in refs
    ensures |Free(Dropped(records, x.fingerprint), refs)| == |Free(records, refs)| - 1
  {
    var rest := records[1..];
    if records[0] == x {
      DropAbsent(rest, x.fingerprint);
      assert Dropped(records, x.fingerprint) == rest;
    } else {
      assert x in rest;
      FreeAfterDrop(rest, x, refs);
      assert Dropped(records, x.fingerprint) == [records[0]] + Dropped(rest, x.fingerprint) by {
        StillUnique(records, x);
      }
    }
  }

  /** The bound on all records follows from the bounds on references and on the
      records outside them. */
  lemma RecordsFit(c: Catalog)
    requires ValidReferences(c.current) && ValidReferences(c.previous) && Unique(c.records)
    requires |Free(c.records, References(c))| <= SLOTS
    ensures |c.records| <= 3 * SLOTS
  {
    Named(c.records, References(c));
    ReferencesFit(c.current + c.previous);
  }

  lemma {:induction false} ReferencesFit(group: seq<nat>)
    ensures |NamesIn(group)| <= |group|
  {
    if group != [] {
      ReferencesFit(group[1..]);
      assert NamesIn(group) == NamesIn(group[1..]) + {group[0]};
    }
  }

  /** Distinct records outside `Free` use distinct references. */
  lemma {:induction false} Named(records: seq<Record>, refs: set<nat>)
    requires Unique(records)
    ensures |records| <= |Free(records, refs)| + |refs|
  {
    if records != [] {
      var f := records[0].fingerprint;
      if f in refs {
        Named(records[1..], refs - {f});
        SameFree(records[1..], refs, f);
      } else {
        Named(records[1..], refs);
      }
    }
  }

  lemma {:induction false} SameFree(records: seq<Record>, refs: set<nat>, f: nat)
    requires forall i :: 0 <= i < |records| ==> records[i].fingerprint != f
    ensures Free(records, refs - {f}) == Free(records, refs)
  {
    if records != [] {
      SameFree(records[1..], refs, f);
    }
  }

  // ----- Statuses -----

  /** The records with the first one of `fingerprint`, if any, set to `status`. */
  function WithStatus(records: seq<Record>, fingerprint: nat, status: Status): (s: seq<Record>)
    ensures |s| == |records|
    ensures forall i :: 0 <= i < |s| ==> s[i] == records[i].(status := s[i].status)
  {
    if records == [] then []
    else if records[0].fingerprint == fingerprint then [records[0].(status := status)] + records[1..]
    else [records[0]] + WithStatus(records[1..], fingerprint, status)
  }

  /** Exactly the record of `fingerprint` gets the status. */
  lemma {:induction false} StatusOfOne(records: seq<Record>, fingerprint: nat, status: Status)
    requires Unique(records)
    ensures forall i :: 0 <= i < |records| ==>
      WithStatus(records, fingerprint, status)[i] ==
      if records[i].fingerprint == fingerprint then records[i].(status := status) else records[i]
  {
    if records != [] && records[0].fingerprint != fingerprint {
      StatusOfOne(records[1..], fingerprint, status);
    }
  }

  /** Statuses alone never change a choice. */
  lemma {:induction false} SameChoices(a: seq<Record>, b: seq<Record>)
    requires |a| == |b| && forall i :: 0 <= i < |a| ==> b[i] == a[i].(status := b[i].status)
    ensures Choices(a) == Choices(b)
  {
    if a != [] {
      var n := |a| - 1;
      SameChoices(a[..n], b[..n]);
    }
  }

  // ----- Revisions -----

  /** `b` may follow `a`: its revision is the next one exactly when some choice
      differs. */
  ghost predicate Revised(a: Catalog, b: Catalog) {
    b.revision == a.revision + (if Choices(a.records) == Choices(b.records) then 0 else 1)
  }

  ghost predicate Chain(log: seq<Catalog>) {
    log != [] && forall i :: 0 < i < |log| ==> Revised(log[i - 1], log[i])
  }

  /** In one run revisions never fall, and two catalogs of one revision choose
      the same objects: a commit that finds the revision it expects finds the
      choices its caller saw. */
  lemma {:induction false} SameRevisionSameChoices(log: seq<Catalog>, i: nat, j: nat)
    requires Chain(log) && i <= j < |log|
    ensures log[i].revision <= log[j].revision
    ensures log[i].revision == log[j].revision ==> Choices(log[i].records) == Choices(log[j].records)
    decreases j - i
  {
    if i < j {
      SameRevisionSameChoices(log, i, j - 1);
      assert Revised(log[j - 1], log[j]);
    }
  }

  /** Removing some of the records changes the choices exactly when it changes
      the records. */
  lemma FewerChoices(a: seq<Record>, b: seq<Record>)
    requires Unique(a) && forall r :: r in b ==> r in a
    requires a != b ==> exists r :: r in a && r !in b
    ensures Choices(a) == Choices(b) <==> a == b
  {
    if a != b {
      var r :| r in a && r !in b;
      ChoiceOf(a, r);
      assert forall x :: x in b && x.fingerprint == r.fingerprint ==> x == r;
      assert r.fingerprint !in Choices(b);
    }
  }
}
