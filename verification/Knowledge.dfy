/** What the cache may answer, told by its history alone.  The reference is an
    unbounded cache that remembers every response; the lemmas show that the
    entries a bounded shard keeps are exactly what that reference last learned
    for the networks they serve. */
module Knowledge {
  import opened Wrappers
  import opened Networks
  import opened Scopes
  import opened CacheTypes
  import opened Responses

  /** Whether a stale answer may stand in for a stored SERVFAIL. */
  datatype Failure = StaleFallback | Final

  datatype Entry = Entry(
    id: nat,
    key: Key,
    wire: Message,
    scope: Scope,
    inserted: nat,
    lifetime: nat,
    retention: nat,
    negative: bool,
    failure: Option<Failure>,
    prefetch: bool,
    charge: nat)

  function Age(e: Entry, now: nat): nat {
    Monus(now, e.inserted)
  }

  predicate Fresh(e: Entry, now: nat) {
    Age(e, now) < e.lifetime
  }

  predicate Retained(e: Entry, now: nat) {
    Age(e, now) < e.retention
  }

  /** Whether an entry may serve a lookup: fresh ones always, answers past their
      lifetime only to a stale fallback, failures never to a stale fallback. */
  predicate Serves(e: Entry, outgoing: Option<ClientSubnet>, now: nat, allowStale: bool) {
    && e.scope.Matches(outgoing)
    && Retained(e, now)
    && (Fresh(e, now) || allowStale)
    && !(allowStale && e.failure.Some?)
  }

  /** One step of a shard's history. `epoch` is what the work read when it
      started; `stored` is absent when the response could not be kept. */
  datatype Event =
    | Answered(key: Key, scope: Scope, epoch: nat, stored: Option<Entry>)
    | Failed(entry: Entry, epoch: nat)
    | Restored(entry: Entry, epoch: nat)
    | Invalidated(filter: Filter)

  function Epoch(log: seq<Event>): nat {
    if log == [] then 0
    else Epoch(log[..|log| - 1]) + (if log[|log| - 1].Invalidated? then 1 else 0)
  }

  ghost predicate Introduces(ev: Event, e: Entry) {
    match ev
    case Answered(key, scope, _, stored) => stored == Some(e) && e.key == key && e.scope == scope && e.failure.None?
    case Failed(f, _) => f == e && e.failure.Some?
    case Restored(r, _) => r == e && e.failure.None?
    case Invalidated(_) => false
  }

  /** The step is newer knowledge that ends entry `e`. */
  ghost predicate Ends(ev: Event, e: Entry) {
    match ev
    case Answered(key, scope, _, _) => e.key == key && Overlap(e.scope, scope)
    case Failed(f, _) => e.failure.Some? && e.key == f.key && Overlap(e.scope, f.scope)
    case Restored(r, _) => e.key == r.key && Overlap(e.scope, r.scope)
    case Invalidated(filter) => filter.NamesEntry(e.key, e.scope)
  }

  /** Step `i` stored `e` for work of that very epoch, and nothing since ended it. */
  ghost predicate StandsSince(log: seq<Event>, e: Entry, i: nat) {
    && i < |log|
    && Introduces(log[i], e)
    && log[i].epoch == Epoch(log[..i])
    && forall j :: i < j < |log| ==> !Ends(log[j], e)
  }

  ghost predicate Stands(log: seq<Event>, e: Entry) {
    exists i: nat :: StandsSince(log, e, i)
  }

  /** Every resident entry stands on the history. */
  ghost predicate Current(resident: set<Entry>, log: seq<Event>) {
    forall e :: e in resident ==> Stands(log, e)
  }

  /** An overlapping answer and failure: the answer was already past its lifetime
      when the failure was stored. */
  ghost predicate PastWhenFailed(answer: Entry, failure: Entry) {
    answer.failure.None? && failure.failure.Some? && answer.inserted + answer.lifetime <= failure.inserted
  }

  /** Namespaces partition each key's entries: answers never overlap answers,
      failures never overlap failures. */
  ghost predicate Compatible(a: Entry, b: Entry) {
    a.key == b.key && Overlap(a.scope, b.scope) && a != b ==> PastWhenFailed(a, b) || PastWhenFailed(b, a)
  }

  ghost predicate Partitioned(resident: set<Entry>) {
    forall a, b :: a in resident && b in resident ==> Compatible(a, b)
  }

  /** The last answer whose namespace covers a subnet: the reference cache. */
  ghost function LastAnswer(log: seq<Event>, key: Key, outgoing: Option<ClientSubnet>): Option<Entry> {
    if log == [] then None
    else
      var rest, ev := log[..|log| - 1], log[|log| - 1];
      match ev
      case Answered(k, scope, _, stored) =>
        if k == key && scope.Matches(outgoing) then stored else LastAnswer(rest, key, outgoing)
      case Restored(r, _) =>
        if r.key == key && r.scope.Matches(outgoing) then Some(r) else LastAnswer(rest, key, outgoing)
      case Failed(_, _) => LastAnswer(rest, key, outgoing)
      case Invalidated(filter) =>
        var e := LastAnswer(rest, key, outgoing);
        if e.Some? && filter.NamesEntry(e.value.key, e.value.scope) then None else e
  }

  /** The last failure for a subnet that no later answer for it has replaced. */
  ghost function LastFailure(log: seq<Event>, key: Key, outgoing: Option<ClientSubnet>): Option<Entry> {
    if log == [] then None
    else
      var rest, ev := log[..|log| - 1], log[|log| - 1];
      match ev
      case Answered(k, scope, _, _) =>
        if k == key && scope.Matches(outgoing) then None else LastFailure(rest, key, outgoing)
      case Restored(r, _) =>
        if r.key == key && r.scope.Matches(outgoing) then None else LastFailure(rest, key, outgoing)
      case Failed(f, _) =>
        if f.key == key && f.scope.Matches(outgoing) then Some(f) else LastFailure(rest, key, outgoing)
      case Invalidated(filter) =>
        var e := LastFailure(rest, key, outgoing);
        if e.Some? && filter.NamesEntry(e.value.key, e.value.scope) then None else e
  }

  /** No resurrection.  An answer that is still resident is the last answer the
      history holds for every subnet it serves: no later response whose stored
      namespace covers such a subnet has been seen, kept or not. */
  lemma {:induction false} AnswerIsLast(log: seq<Event>, e: Entry, i: nat, outgoing: Option<ClientSubnet>)
    requires StandsSince(log, e, i) && e.failure.None? && e.scope.Matches(outgoing)
    ensures LastAnswer(log, e.key, outgoing) == Some(e)
  {
    var n := |log| - 1;
    if i < n {
      assert log[..n][..i] == log[..i];
      AnswerIsLast(log[..n], e, i, outgoing);
      assert !Ends(log[n], e);
      MatchEnds(log[n], e, outgoing);
    }
  }

  lemma {:induction false} FailureIsLast(log: seq<Event>, e: Entry, i: nat, outgoing: Option<ClientSubnet>)
    requires StandsSince(log, e, i) && e.failure.Some? && e.scope.Matches(outgoing)
    ensures LastFailure(log, e.key, outgoing) == Some(e)
  {
    var n := |log| - 1;
    if i < n {
      assert log[..n][..i] == log[..i];
      FailureIsLast(log[..n], e, i, outgoing);
      assert !Ends(log[n], e);
      MatchEnds(log[n], e, outgoing);
    }
  }

  /** A response stored for a namespace that serves one of the entry's subnets
      ends the entry. */
  lemma MatchEnds(ev: Event, e: Entry, outgoing: Option<ClientSubnet>)
    requires e.scope.Matches(outgoing) && !Ends(ev, e)
    ensures ev.Answered? && ev.key == e.key ==> !ev.scope.Matches(outgoing)
    ensures ev.Restored? && ev.entry.key == e.key ==> !ev.entry.scope.Matches(outgoing)
    ensures ev.Failed? && ev.entry.key == e.key && e.failure.Some? ==> !ev.entry.scope.Matches(outgoing)
  {
    match ev
    case Answered(_, scope, _, _) =>
      if scope.Matches(outgoing) { MatchingScopesOverlap(e.scope, scope, outgoing); }
    case Restored(r, _) =>
      if r.scope.Matches(outgoing) { MatchingScopesOverlap(e.scope, r.scope, outgoing); }
    case Failed(f, _) =>
      if f.scope.Matches(outgoing) { MatchingScopesOverlap(e.scope, f.scope, outgoing); }
    case Invalidated(_) =>
  }

  /** At most one entry can serve a lookup, in either mode, so the ranking of
      candidates never decides anything. */
  lemma OneCandidate(resident: set<Entry>, a: Entry, b: Entry, outgoing: Option<ClientSubnet>, now: nat,
                     allowStale: bool)
    requires Partitioned(resident) && a in resident && b in resident && a.key == b.key
    requires Serves(a, outgoing, now, allowStale) && Serves(b, outgoing, now, allowStale)
    requires a.inserted <= now && b.inserted <= now
    ensures a == b
  {
    MatchingScopesOverlap(a.scope, b.scope, outgoing);
    assert Compatible(a, b);
  }

  /** Epoch linearisation.  A resident entry that an invalidation names was
      written by work that read its epoch after that invalidation: the epoch
      counts invalidation `j` and every one before it. */
  lemma WrittenAfterInvalidation(log: seq<Event>, e: Entry, i: nat, j: nat)
    requires StandsSince(log, e, i)
    requires j < |log| && log[j].Invalidated? && log[j].filter.NamesEntry(e.key, e.scope)
    ensures j < i && Epoch(log[..j]) < log[i].epoch
  {
    assert j != i;
    if i < j {
      assert Ends(log[j], e);
    }
    EpochGrows(log, j + 1, i);
    assert log[..j + 1][..j] == log[..j];
  }

  lemma {:induction false} EpochGrows(log: seq<Event>, a: nat, b: nat)
    requires a <= b <= |log|
    ensures Epoch(log[..a]) <= Epoch(log[..b])
    decreases b
  {
    if a < b {
      EpochGrows(log, a, b - 1);
      assert log[..b][..b - 1] == log[..b - 1];
    }
  }

  /** Losing entries never makes the rest wrong. */
  lemma ShrinkKeeps(before: set<Entry>, after: set<Entry>, log: seq<Event>)
    requires Partitioned(before) && Current(before, log) && after <= before
    ensures Partitioned(after) && Current(after, log)
  {
  }

  lemma StandsExtends(log: seq<Event>, ev: Event, e: Entry)
    requires Stands(log, e) && !Ends(ev, e)
    ensures Stands(log + [ev], e)
  {
    var i: nat :| StandsSince(log, e, i);
    assert (log + [ev])[..i] == log[..i];
    assert StandsSince(log + [ev], e, i);
  }

  lemma IntroducedStands(log: seq<Event>, ev: Event, e: Entry)
    requires Introduces(ev, e) && !ev.Invalidated? && ev.epoch == Epoch(log)
    ensures Stands(log + [ev], e)
  {
    assert (log + [ev])[..|log|] == log;
    assert StandsSince(log + [ev], e, |log|);
  }

  lemma CurrentExtends(before: set<Entry>, after: set<Entry>, log: seq<Event>, ev: Event)
    requires Current(before, log)
    requires !ev.Invalidated? && ev.epoch == Epoch(log)
    requires forall e :: e in after ==> (e in before && !Ends(ev, e)) || Introduces(ev, e)
    ensures Current(after, log + [ev])
  {
    forall e | e in after
      ensures Stands(log + [ev], e)
    {
      if Introduces(ev, e) {
        IntroducedStands(log, ev, e);
      } else {
        StandsExtends(log, ev, e);
      }
    }
  }

  /** An answer that reached supersession removes every overlapping entry of its
      key, and may then itself be kept or not. */
  lemma AnswerKeeps(before: set<Entry>, after: set<Entry>, log: seq<Event>, ev: Event)
    requires Partitioned(before) && Current(before, log)
    requires ev.Answered? && ev.epoch == Epoch(log)
    requires ev.stored.Some? ==> Introduces(ev, ev.stored.value)
    requires forall e :: e in after ==> ev.stored == Some(e) || (e in before && !Ends(ev, e))
    ensures Partitioned(after) && Current(after, log + [ev])
  {
    CurrentExtends(before, after, log, ev);
    forall a, b | a in after && b in after
      ensures Compatible(a, b)
    {
      OverlapSymmetric(a.scope, b.scope);
    }
  }

  /** A failure is stored only beside answers already past their lifetime, and
      takes the place of older failures it overlaps. */
  lemma FailureKeeps(before: set<Entry>, after: set<Entry>, log: seq<Event>, ev: Event)
    requires Partitioned(before) && Current(before, log)
    requires ev.Failed? && ev.epoch == Epoch(log) && Introduces(ev, ev.entry)
    requires forall e :: e in after ==> e == ev.entry || (e in before && !Ends(ev, e))
    requires forall e :: e in before && e.key == ev.entry.key && Overlap(e.scope, ev.entry.scope) && e.failure.None? ==>
      0 < e.lifetime && !Fresh(e, ev.entry.inserted)
    ensures Partitioned(after) && Current(after, log + [ev])
  {
    CurrentExtends(before, after, log, ev);
    forall a, b | a in after && b in after
      ensures Compatible(a, b)
    {
      OverlapSymmetric(a.scope, b.scope);
    }
  }

  /** A restored record is admitted only where nothing resident overlaps it. */
  lemma RestoreKeeps(before: set<Entry>, after: set<Entry>, log: seq<Event>, ev: Event)
    requires Partitioned(before) && Current(before, log)
    requires ev.Restored? && ev.epoch == Epoch(log) && Introduces(ev, ev.entry)
    requires forall e :: e in before ==> !Ends(ev, e)
    requires forall e :: e in after ==> e == ev.entry || e in before
    ensures Partitioned(after) && Current(after, log + [ev])
  {
    CurrentExtends(before, after, log, ev);
    forall a, b | a in after && b in after
      ensures Compatible(a, b)
    {
      OverlapSymmetric(a.scope, b.scope);
    }
  }

  lemma InvalidateKeeps(before: set<Entry>, after: set<Entry>, log: seq<Event>, ev: Event)
    requires Partitioned(before) && Current(before, log)
    requires ev.Invalidated?
    requires forall e :: e in after ==> e in before && !Ends(ev, e)
    ensures Partitioned(after) && Current(after, log + [ev])
  {
    ShrinkKeeps(before, after, log);
    forall e | e in after ensures Stands(log + [ev], e) {
      StandsExtends(log, ev, e);
    }
  }
}
