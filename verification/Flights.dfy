/** Shared in-flight work, driven by its callers (src/flight.rs).  Each method is
    one atomic step; the steps of `join` run under the registry's lock, between
    which other callers may leave, drop their holds or let work finish. */
module Flights {
  import opened Wrappers
  import opened Sequences

  /** A canonical work key. */
  type Key = seq<nat>

  /** One holder's share of work: whether the shared counter counts it, and
      whether it still keeps the work alive. */
  datatype Hold = Hold(work: nat, counted: bool, strong: bool)

  /** How far the caller that has the lock got: it reaped for `key`, or it took a
      share of live work that it has yet to count. */
  datatype Lock = Open | Reaped(key: Key) | Counting(hold: nat)

  datatype Role = Overload | Bypass(hold: nat) | Leader(hold: nat) | Joining(hold: nat)

  /** Ghost record: the key that work was started for, the work that some holder
      left by dropping its hold, and the holds that `leave` gave back. */
  datatype Past = Past(keys: map<nat, Key>, dropped: set<nat>, kept: set<nat>)

  ghost function Counted(holds: map<nat, Hold>, work: nat): set<nat> {
    set h | h in holds && holds[h].counted && holds[h].work == work
  }

  /** Some share still keeps the work alive. */
  predicate Alive(holds: map<nat, Hold>, work: nat) {
    exists h :: h in holds && holds[h].strong && holds[h].work == work
  }

  predicate Live(holds: map<nat, Hold>, finished: set<nat>, work: nat) {
    Alive(holds, work) && work !in finished
  }

  /** Each counter is the number of counted holds. */
  ghost predicate Exact(counters: map<nat, nat>, holds: map<nat, Hold>) {
    && (forall h :: h in holds ==> holds[h].work in counters)
    && (forall w :: w in counters ==> counters[w] == |Counted(holds, w)|)
  }

  /** Work that nobody dropped is still counted, and at most one hold of each work
      is one that `leave` gave back. */
  ghost predicate Settled(counters: map<nat, nat>, holds: map<nat, Hold>, past: Past) {
    && (forall w :: w in counters && w !in past.dropped ==> counters[w] >= 1)
    && (forall h :: h in past.kept ==> h in holds && holds[h].counted)
    && (forall g, h :: g in past.kept && h in past.kept && holds[g].work == holds[h].work ==> g == h)
  }

  /** The registry names every live work, under its key. */
  ghost predicate Registered(groups: map<Key, nat>, counters: map<nat, nat>, holds: map<nat, Hold>, finished: set<nat>,
                             past: Past) {
    && (forall w :: w in past.keys ==> w in counters)
    && (forall k :: k in groups ==> groups[k] in past.keys && past.keys[groups[k]] == k)
    && (forall w :: w in past.keys && Live(holds, finished, w) ==> past.keys[w] in groups && groups[past.keys[w]] == w)
  }

  ghost predicate Bounded(counters: map<nat, nat>, holds: map<nat, Hold>, lock: Lock, past: Past, maxWaiters: nat) {
    && (forall w :: w in past.keys && w in counters ==> counters[w] <= maxWaiters)
    && (lock.Counting? ==>
          && lock.hold in holds && !holds[lock.hold].counted && holds[lock.hold].strong
          && holds[lock.hold].work in past.keys && holds[lock.hold].work in counters
          && counters[holds[lock.hold].work] < maxWaiters)
  }

  // ----- What each step keeps -----

  lemma CountOne(holds: map<nat, Hold>, h: nat, x: Hold, w: nat)
    requires h !in holds || !holds[h].counted
    ensures |Counted(holds[h := x], w)| == |Counted(holds, w)| + (if x.counted && x.work == w then 1 else 0)
  {
    if x.counted && x.work == w {
      assert Counted(holds[h := x], w) == Counted(holds, w) + {h};
    } else {
      assert Counted(holds[h := x], w) == Counted(holds, w);
    }
  }

  lemma UncountOne(holds: map<nat, Hold>, h: nat, w: nat)
    requires h in holds && holds[h].counted
    ensures |Counted(holds[h := holds[h].(counted := false)], w)| ==
      |Counted(holds, w)| - (if holds[h].work == w then 1 else 0)
    ensures holds[h].work == w ==> |Counted(holds, w)| >= 1
  {
    var holds' := holds[h := holds[h].(counted := false)];
    if holds[h].work == w {
      assert h in Counted(holds, w);
      assert Counted(holds', w) == Counted(holds, w) - {h};
    } else {
      assert Counted(holds', w) == Counted(holds, w);
    }
  }

  lemma ForgetOne(holds: map<nat, Hold>, h: nat, w: nat)
    requires h in holds && !holds[h].counted
    ensures Counted(holds - {h}, w) == Counted(holds, w)
  {
  }

  /** A counter of one means that no other hold is counted. */
  lemma SoleHold(holds: map<nat, Hold>, g: nat, h: nat)
    requires g in holds && h in holds && holds[g].counted && holds[h].counted && holds[g].work == holds[h].work
    requires |Counted(holds, holds[h].work)| <= 1
    ensures g == h
  {
    var s := Counted(holds, holds[h].work);
    assert h in s && |s - {h}| == 0;
    assert g !in s - {h};
  }

  /** A new counted hold of `w`, which is new or already there. */
  lemma HoldKeeps(counters: map<nat, nat>, holds: map<nat, Hold>, past: Past, h: nat, w: nat)
    requires Exact(counters, holds) && Settled(counters, holds, past)
    requires (h !in holds || (!holds[h].counted && holds[h].work == w))
    ensures var counters' := counters[w := (if w in counters then counters[w] else 0) + 1];
      && Exact(counters', holds[h := Hold(w, true, true)])
      && Settled(counters', holds[h := Hold(w, true, true)], past)
  {
    var counters' := counters[w := (if w in counters then counters[w] else 0) + 1];
    var holds' := holds[h := Hold(w, true, true)];
    forall v | v in counters' ensures counters'[v] == |Counted(holds', v)| {
      CountOne(holds, h, Hold(w, true, true), v);
      if v !in counters {
        assert Counted(holds, v) == {};
      }
    }
    forall g | g in past.kept ensures g in holds' && holds'[g] == holds[g] {
    }
  }

  /** A counted hold that is no longer counted. */
  lemma UncountKeeps(counters: map<nat, nat>, holds: map<nat, Hold>, past: Past, h: nat, past': Past)
    requires Exact(counters, holds) && Settled(counters, holds, past)
    requires h in holds && holds[h].counted
    requires counters[holds[h].work] > 1 || holds[h].work in past'.dropped
    requires past' == past.(kept := past.kept - {h}, dropped := past'.dropped) && past.dropped <= past'.dropped
    ensures var w := holds[h].work;
      && counters[w] >= 1
      && Exact(counters[w := counters[w] - 1], holds[h := holds[h].(counted := false)])
      && Settled(counters[w := counters[w] - 1], holds[h := holds[h].(counted := false)], past')
  {
    var w := holds[h].work;
    UncountOne(holds, h, w);
    var counters', holds' := counters[w := counters[w] - 1], holds[h := holds[h].(counted := false)];
    forall v | v in counters' ensures counters'[v] == |Counted(holds', v)| {
      UncountOne(holds, h, v);
    }
    forall g | g in past'.kept ensures g in holds' && holds'[g] == holds[g] {
    }
  }

  class Flights {
    const enabled: bool
    const maxGroups: nat
    const maxWaiters: nat
    var groups: map<Key, nat>
    var counters: map<nat, nat>
    /** The holds of all callers. */
    var holds: map<nat, Hold>
    /** Work whose result is there. */
    var finished: set<nat>
    var lock: Lock
    var next: nat
    ghost var past: Past

    ghost predicate Valid()
      reads this
    {
      && maxWaiters >= 1
      && |groups| <= maxGroups
      && Exact(counters, holds)
      && Settled(counters, holds, past)
      && Registered(groups, counters, holds, finished, past)
      && Bounded(counters, holds, lock, past, maxWaiters)
      && (forall w :: w in counters ==> w < next)
      && (forall h :: h in holds ==> h < next)
    }

    constructor (enabled: bool, maxGroups: nat, maxWaiters: nat)
      requires maxWaiters >= 1
      ensures Valid() && groups == map[] && holds == map[] && counters == map[] && finished == {} && lock == Open
      ensures past == Past(map[], {}, {})
      ensures this.enabled == enabled && this.maxGroups == maxGroups && this.maxWaiters == maxWaiters
    {
      this.enabled, this.maxGroups, this.maxWaiters := enabled, maxGroups, maxWaiters;
      groups, counters, holds, finished, lock, next := map[], map[], map[], {}, Open, 0;
      past := Past(map[], {}, {});
    }

    // ----- Joining -----

    /** How every request begins: with its own work if sharing is off or it has no
        key, and under the lock otherwise. */
    method Join(key: Option<Key>) returns (role: Option<Role>)
      requires Valid() && lock == Open
      modifies this`groups, this`lock, this`counters, this`holds, this`next
      ensures Valid()
      ensures role.Some? <==> !enabled || key.None?
      ensures role.None? ==> lock == Reaped(key.value) && holds == old(holds) && counters == old(counters)
      ensures role.None? ==>
        groups == map k | k in old(groups) && Live(holds, finished, old(groups)[k]) :: old(groups)[k]
      ensures role.Some? ==> role.value.Bypass? && lock == Open && groups == old(groups)
      ensures role.Some? ==>
        && role.value.hold !in old(holds) && role.value.hold !in old(counters)
        && holds == old(holds)[role.value.hold := Hold(role.value.hold, true, true)]
        && counters == old(counters)[role.value.hold := 1]
    {
      hide Settled, Registered, Exact, Bounded, Live;
      if !enabled || key.None? {
        var h := Bypassing();
        return Some(Bypass(h));
      }
      Reap(key.value);
      role := None;
    }

    /** A request that cannot share starts its own work, outside the registry. */
    method Bypassing() returns (h: nat)
      requires Valid()
      modifies this`counters, this`holds, this`next
      ensures Valid() && h !in old(holds) && h !in old(counters)
      ensures holds == old(holds)[h := Hold(h, true, true)] && counters == old(counters)[h := 1]
    {
      hide Settled, Registered, Exact;
      HoldKeeps(counters, holds, past, next, next);
      StartKeeps(groups, counters, holds, finished, past, next);
      counters := counters[next := 1];
      holds := holds[next := Hold(next, true, true)];
      h := next;
      next := next + 1;
    }

    /** Takes the lock and forgets the groups whose work is dead or finished. */
    method Reap(key: Key)
      requires Valid() && lock == Open
      modifies this`groups, this`lock
      ensures Valid() && lock == Reaped(key)
      ensures groups == map k | k in old(groups) && Live(holds, finished, old(groups)[k]) :: old(groups)[k]
    {
      hide Settled, Exact;
      var left := map k | k in groups && Live(holds, finished, groups[k]) :: groups[k];
      SubsetSize(left.Keys, groups.Keys);
      groups := left;
      lock := Reaped(key);
    }

    /** Looks the key up.  It takes a share of work that is still alive, refuses
        when the work or the registry is full, or starts new work. */
    method Find() returns (role: Role)
      requires Valid() && lock.Reaped?
      modifies this
      ensures Valid()
      ensures var k := old(lock).key; var shared := k in old(groups) && Alive(old(holds), old(groups)[k]);
        && (role.Overload? <==>
              if shared then old(counters)[old(groups)[k]] >= maxWaiters else |old(groups)| >= maxGroups)
        && (role.Joining? ==> shared && lock == Counting(role.hold) && holds == old(holds)[role.hold := Hold(old(groups)[k], false, true)]
                              && groups == old(groups) && counters == old(counters) && past == old(past))
        && (role.Leader? ==> !shared && lock == Open && holds == old(holds)[role.hold := Hold(role.hold, true, true)]
                             && groups == old(groups)[k := role.hold] && counters == old(counters)[role.hold := 1]
                             && past == old(past).(keys := old(past).keys[role.hold := k]))
        && (role.Overload? ==>
              lock == Open && holds == old(holds) && groups == old(groups) && counters == old(counters) && past == old(past))
      ensures !role.Bypass? && (!role.Overload? ==> role.hold !in old(holds)) && finished == old(finished)
    {
      hide Settled, Registered, Exact, Alive;
      var k := lock.key;
      if k in groups && Alive(holds, groups[k]) {
        var w := groups[k];
        assert w in past.keys && w in counters by { GroupIsKeyed(groups, counters, holds, finished, past, k); }
        if counters[w] >= maxWaiters {
          lock := Open;
          return Overload;
        }
        ShareKeeps(groups, counters, holds, finished, past, next, w);
        holds := holds[next := Hold(w, false, true)];
        lock := Counting(next);
        role := Joining(next);
        next := next + 1;
      } else if |groups| >= maxGroups {
        lock := Open;
        return Overload;
      } else {
        var h := Lead(k);
        role := Leader(h);
      }
    }

    /** Starts new work for `k` and lets the lock go. */
    method Lead(k: Key) returns (h: nat)
      requires Valid() && |groups| < maxGroups && (k in groups ==> !Alive(holds, groups[k]))
      modifies this
      ensures Valid() && lock == Open && h !in old(holds) && finished == old(finished)
      ensures holds == old(holds)[h := Hold(h, true, true)] && counters == old(counters)[h := 1]
      ensures groups == old(groups)[k := h] && past == old(past).(keys := old(past).keys[h := k])
    {
      hide Settled, Registered, Exact, Alive;
      h := next;
      HoldKeeps(counters, holds, past, h, h);
      LeadKeeps(groups, counters, holds, finished, past, h, k);
      GrowsByOne(groups, k, h);
      SettledKeys(counters[h := 1], holds[h := Hold(h, true, true)], past, past.keys[h := k]);
      groups := groups[k := h];
      past := past.(keys := past.keys[h := k]);
      counters := counters[h := 1];
      holds := holds[h := Hold(h, true, true)];
      lock := Open;
      next := next + 1;
    }

    /** Counts the share that was taken, and lets the lock go. */
    method Count()
      requires Valid() && lock.Counting?
      modifies this`counters, this`holds, this`lock
      ensures Valid() && lock == Open
      ensures var h := old(lock).hold; var w := old(holds)[h].work;
        && holds == old(holds)[h := Hold(w, true, true)]
        && counters == old(counters)[w := old(counters)[w] + 1]
    {
      hide Settled, Registered, Exact;
      var h := lock.hold;
      var w := holds[h].work;
      HoldKeeps(counters, holds, past, h, w);
      RecountKeeps(groups, counters, holds, finished, past, h, w, counters[w] + 1, true, past);
      counters := counters[w := counters[w] + 1];
      holds := holds[h := Hold(w, true, true)];
      lock := Open;
    }

    // ----- Leaving -----

    /** Leaves the work, unless this is its only counted hold: that one comes back,
        still counted. */
    method Leave(h: nat) returns (last: bool)
      requires Valid() && h in holds && holds[h].counted
      modifies this`counters, this`holds, this`past
      ensures Valid()
      ensures last <==> Counted(old(holds), old(holds)[h].work) == {h}
      ensures last ==>
        holds == old(holds) && counters == old(counters) && past == old(past).(kept := old(past).kept + {h})
      ensures !last ==>
        && holds == old(holds)[h := old(holds)[h].(counted := false)]
        && counters == old(counters)[holds[h].work := old(counters)[holds[h].work] - 1]
        && past == old(past).(kept := old(past).kept - {h})
    {
      hide Settled, Registered, Exact, Bounded, Counted;
      var w := holds[h].work;
      CounterOf(counters, holds, h);
      OnlyOne(holds, h);
      if counters[w] > 1 {
        last := false;
        LessOne(groups, counters, holds, finished, lock, past, h, past.(kept := past.kept - {h}), maxWaiters);
        counters := counters[w := counters[w] - 1];
        holds := holds[h := holds[h].(counted := false)];
        past := past.(kept := past.kept - {h});
      } else {
        last := true;
        GiveBackKeeps(counters, holds, past, h);
        KeysOnly(groups, counters, holds, finished, lock, past, past.(kept := past.kept + {h}), maxWaiters);
        past := past.(kept := past.kept + {h});
      }
    }

    /** Drops a hold that is counted. */
    method Drop(h: nat)
      requires Valid() && h in holds && holds[h].counted
      modifies this`counters, this`holds, this`past
      ensures Valid()
      ensures old(counters)[old(holds)[h].work] >= 1
      ensures holds == old(holds)[h := old(holds)[h].(counted := false)]
      ensures counters == old(counters)[holds[h].work := old(counters)[holds[h].work] - 1]
      ensures past == old(past).(kept := old(past).kept - {h}, dropped := old(past).dropped + {holds[h].work})
    {
      hide Settled, Registered, Exact, Bounded;
      var w := holds[h].work;
      CounterOf(counters, holds, h);
      OnlyOne(holds, h);
      ghost var past' := past.(kept := past.kept - {h}, dropped := past.dropped + {w});
      LessOne(groups, counters, holds, finished, lock, past, h, past', maxWaiters);
      counters := counters[w := counters[w] - 1];
      holds := holds[h := holds[h].(counted := false)];
      past := past';
    }

    /** Lets go of the work once its hold is no longer counted. */
    method Release(h: nat)
      requires Valid() && h in holds && !holds[h].counted && lock != Counting(h)
      modifies this`holds
      ensures Valid() && holds == old(holds) - {h}
    {
      hide Settled, Registered, Exact;
      ForgetKeeps(groups, counters, holds, finished, past, h);
      holds := holds - {h};
    }

    // ----- Results -----

    method Finish(work: nat)
      requires Valid()
      modifies this`finished
      ensures Valid() && finished == old(finished) + {work}
    {
      hide Settled, Exact, Bounded;
      finished := finished + {work};
    }

    /** A holder that took the result stops keeping the work alive. */
    method Take(h: nat)
      requires Valid() && h in holds && holds[h].work in finished && lock != Counting(h)
      modifies this`holds
      ensures Valid() && holds == old(holds)[h := old(holds)[h].(strong := false)]
    {
      hide Settled, Registered, Exact;
      TakeKeeps(groups, counters, holds, finished, past, h);
      holds := holds[h := holds[h].(strong := false)];
    }

    // ----- What follows -----

    /** At most one live unfinished work exists per key. */
    lemma OneLivePerKey(v: nat, w: nat)
      requires Valid() && v in past.keys && w in past.keys && past.keys[v] == past.keys[w]
      requires Live(holds, finished, v) && Live(holds, finished, w)
      ensures v == w
    {
    }

    /** When nobody dropped a hold of some work and all its counted holds went
        through `leave`, exactly one of them came back, and it is still counted. */
    lemma ExactlyOneLast(w: nat) returns (h: nat)
      requires Valid() && w in counters && w !in past.dropped && Counted(holds, w) <= past.kept
      ensures Counted(holds, w) == {h} && h in past.kept && counters[w] == 1
    {
      var s := Counted(holds, w);
      assert |s| >= 1;
      h :| h in s;
      assert s == {h};
    }

    /** No group is over its limit, whoever came and went. */
    lemma WithinLimits(k: Key)
      requires Valid() && k in groups
      ensures |groups| <= maxGroups
      ensures groups[k] in counters && counters[groups[k]] == |Counted(holds, groups[k])| <= maxWaiters
    {
    }
  }

  lemma GroupIsKeyed(groups: map<Key, nat>, counters: map<nat, nat>, holds: map<nat, Hold>, finished: set<nat>,
                     past: Past, k: Key)
    requires Registered(groups, counters, holds, finished, past) && k in groups
    ensures groups[k] in past.keys && groups[k] in counters && past.keys[groups[k]] == k
  {
  }

  lemma GrowsByOne(groups: map<Key, nat>, k: Key, w: nat)
    ensures |groups[k := w]| <= |groups| + 1
  {
    assert groups[k := w].Keys == groups.Keys + {k};
  }

  lemma SettledKeys(counters: map<nat, nat>, holds: map<nat, Hold>, past: Past, keys: map<nat, Key>)
    requires Settled(counters, holds, past)
    ensures Settled(counters, holds, past.(keys := keys))
  {
  }

  /** A hold that keeps nothing alive anew leaves no other work alive. */
  lemma NoNewLife(holds: map<nat, Hold>, holds': map<nat, Hold>, finished: set<nat>, v: nat)
    requires forall h :: h in holds' && holds'[h].strong && holds'[h].work == v ==>
      exists g :: g in holds && holds[g].strong && holds[g].work == v
    ensures Live(holds', finished, v) ==> Live(holds, finished, v)
  {
  }

  lemma StartKeeps(groups: map<Key, nat>, counters: map<nat, nat>, holds: map<nat, Hold>, finished: set<nat>,
                   past: Past, w: nat)
    requires Registered(groups, counters, holds, finished, past) && w !in counters && w !in holds
    ensures Registered(groups, counters[w := 1], holds[w := Hold(w, true, true)], finished, past)
  {
    forall v | v in past.keys ensures Live(holds[w := Hold(w, true, true)], finished, v) ==> Live(holds, finished, v) {
      NoNewLife(holds, holds[w := Hold(w, true, true)], finished, v);
    }
  }

  /** New work for `k`: whatever the registry named there is dead. */
  lemma LeadKeeps(groups: map<Key, nat>, counters: map<nat, nat>, holds: map<nat, Hold>, finished: set<nat>,
                  past: Past, w: nat, k: Key)
    requires Registered(groups, counters, holds, finished, past) && w !in counters && w !in holds
    requires k in groups ==> !Alive(holds, groups[k])
    ensures Registered(groups[k := w], counters[w := 1], holds[w := Hold(w, true, true)], finished,
                       past.(keys := past.keys[w := k]))
  {
    forall v | v in past.keys ensures Live(holds[w := Hold(w, true, true)], finished, v) ==> Live(holds, finished, v) {
      NoNewLife(holds, holds[w := Hold(w, true, true)], finished, v);
    }
  }

  /** A share of work that is alive. */
  lemma ShareKeeps(groups: map<Key, nat>, counters: map<nat, nat>, holds: map<nat, Hold>, finished: set<nat>,
                   past: Past, h: nat, w: nat)
    requires Exact(counters, holds) && Settled(counters, holds, past)
    requires Registered(groups, counters, holds, finished, past)
    requires h !in holds && w in counters && Alive(holds, w)
    ensures var holds' := holds[h := Hold(w, false, true)];
      Exact(counters, holds') && Settled(counters, holds', past) && Registered(groups, counters, holds', finished, past)
  {
    var holds' := holds[h := Hold(w, false, true)];
    forall v ensures |Counted(holds', v)| == |Counted(holds, v)| {
      CountOne(holds, h, Hold(w, false, true), v);
    }
    forall v | v in past.keys ensures Live(holds', finished, v) ==> Live(holds, finished, v) {
      NoNewLife(holds, holds', finished, v);
    }
  }

  /** Counting a hold or not changes no life. */
  lemma RecountKeeps(groups: map<Key, nat>, counters: map<nat, nat>, holds: map<nat, Hold>, finished: set<nat>,
                     past: Past, h: nat,
                     w: nat, n: nat, counted: bool, past': Past)
    requires Registered(groups, counters, holds, finished, past) && h in holds && holds[h].work == w && w in counters
    requires past'.keys == past.keys
    ensures Registered(groups, counters[w := n], holds[h := holds[h].(counted := counted)], finished, past')
  {
    forall v ensures Live(holds[h := holds[h].(counted := counted)], finished, v) ==> Live(holds, finished, v) {
      NoNewLife(holds, holds[h := holds[h].(counted := counted)], finished, v);
    }
  }

  lemma CounterOf(counters: map<nat, nat>, holds: map<nat, Hold>, h: nat)
    requires Exact(counters, holds) && h in holds
    ensures holds[h].work in counters && counters[holds[h].work] == |Counted(holds, holds[h].work)|
  {
  }

  /** One counted hold fewer. */
  lemma LessOne(groups: map<Key, nat>, counters: map<nat, nat>, holds: map<nat, Hold>, finished: set<nat>, lock: Lock,
                past: Past,
                h: nat, past': Past, maxWaiters: nat)
    requires Exact(counters, holds) && Settled(counters, holds, past)
    requires Registered(groups, counters, holds, finished, past)
    requires Bounded(counters, holds, lock, past, maxWaiters)
    requires h in holds && holds[h].counted
    requires counters[holds[h].work] > 1 || holds[h].work in past'.dropped
    requires past' == past.(kept := past.kept - {h}, dropped := past'.dropped) && past.dropped <= past'.dropped
    ensures var w := holds[h].work; var holds' := holds[h := holds[h].(counted := false)];
      && counters[w] >= 1
      && var counters' := counters[w := counters[w] - 1];
      && Exact(counters', holds') && Settled(counters', holds', past')
      && Registered(groups, counters', holds', finished, past') && Bounded(counters', holds', lock, past', maxWaiters)
  {
    hide Settled, Registered;
    var w := holds[h].work;
    UncountKeeps(counters, holds, past, h, past');
    RecountKeeps(groups, counters, holds, finished, past, h, w, counters[w] - 1, false, past');
  }

  lemma OnlyOne(holds: map<nat, Hold>, h: nat)
    requires h in holds && holds[h].counted
    ensures |Counted(holds, holds[h].work)| > 1 <==> Counted(holds, holds[h].work) != {h}
    ensures |Counted(holds, holds[h].work)| >= 1
  {
    var s := Counted(holds, holds[h].work);
    assert h in s;
    if |s| <= 1 {
      forall g | g in s ensures g == h {
        SoleHold(holds, g, h);
      }
      assert s == {h};
    }
  }

  lemma KeysOnly(groups: map<Key, nat>, counters: map<nat, nat>, holds: map<nat, Hold>, finished: set<nat>, lock: Lock,
                 past: Past,
                 past': Past, maxWaiters: nat)
    requires Registered(groups, counters, holds, finished, past) && Bounded(counters, holds, lock, past, maxWaiters)
    requires past'.keys == past.keys
    ensures Registered(groups, counters, holds, finished, past') && Bounded(counters, holds, lock, past', maxWaiters)
  {
  }

  lemma GiveBackKeeps(counters: map<nat, nat>, holds: map<nat, Hold>, past: Past, h: nat)
    requires Exact(counters, holds) && Settled(counters, holds, past)
    requires h in holds && holds[h].counted && counters[holds[h].work] <= 1
    ensures Settled(counters, holds, past.(kept := past.kept + {h}))
  {
    forall g | g in past.kept && holds[g].work == holds[h].work ensures g == h {
      SoleHold(holds, g, h);
    }
  }

  lemma ForgetKeeps(groups: map<Key, nat>, counters: map<nat, nat>, holds: map<nat, Hold>, finished: set<nat>,
                    past: Past, h: nat)
    requires Exact(counters, holds) && Settled(counters, holds, past)
    requires Registered(groups, counters, holds, finished, past)
    requires h in holds && !holds[h].counted
    ensures Exact(counters, holds - {h}) && Settled(counters, holds - {h}, past)
    ensures Registered(groups, counters, holds - {h}, finished, past)
  {
    forall v ensures Counted(holds - {h}, v) == Counted(holds, v) {
      ForgetOne(holds, h, v);
    }
    forall v | v in past.keys ensures Live(holds - {h}, finished, v) ==> Live(holds, finished, v) {
      NoNewLife(holds, holds - {h}, finished, v);
    }
  }

  lemma TakeKeeps(groups: map<Key, nat>, counters: map<nat, nat>, holds: map<nat, Hold>, finished: set<nat>,
                  past: Past, h: nat)
    requires Exact(counters, holds) && Settled(counters, holds, past)
    requires Registered(groups, counters, holds, finished, past)
    requires h in holds
    ensures var holds' := holds[h := holds[h].(strong := false)];
      Exact(counters, holds') && Settled(counters, holds', past) && Registered(groups, counters, holds', finished, past)
  {
    var holds' := holds[h := holds[h].(strong := false)];
    forall v ensures Counted(holds', v) == Counted(holds, v) {
    }
    forall v | v in past.keys ensures Live(holds', finished, v) ==> Live(holds, finished, v) {
      NoNewLife(holds, holds', finished, v);
    }
  }
}
