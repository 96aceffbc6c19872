/** Which upstream responses may be stored, and for how long. */
module Responses {
  import opened Wrappers
  import opened CacheTypes
  import opened Sequences

  const IN: nat := 1
  const CNAME: nat := 5
  const SOA: nat := 6
  const SIG: nat := 24
  const TSIG: nat := 250
  const MAX_TTL: nat := 0x7fff_ffff

  datatype RData =
    | Cname(target: Name)
    | Soa(minimum: nat, rest: nat)
    | Data(kind: nat, bytes: nat)
  {
    function Kind(): nat {
      match this
      case Cname(_) => CNAME
      case Soa(_, _) => SOA
      case Data(kind, _) => kind
    }
  }

  datatype Record = Record(name: Name, class_: nat, ttl: nat, data: RData)

  datatype ResponseCode = NoError | NXDomain | ServFail | OtherCode

  /** The EDNS options of a response: only a subnet or padding, also extended
      errors, or something that belongs to one transaction. */
  datatype Edns = Plain | WithErrors | Foreign

  datatype Message = Message(
    code: ResponseCode,
    truncated: bool,
    signed: bool,
    edns: Edns,
    answers: seq<Record>,
    authorities: seq<Record>,
    additionals: seq<Record>)

  datatype Reason =
    | UnsupportedEdns | TtlZero | NegativeWithoutSoa | UncacheableResponse
    | PolicyDisabled | Capacity | VariantLimit | EpochChanged

  datatype Policy = Policy(bypass: bool, maxTtl: nat, negativeCap: nat, prefetch: bool, stale: bool)

  /** The policy of every key: the configured one unless a rule gives another. */
  datatype Policies = Policies(usual: Policy, ruled: map<Key, Policy>)
  {
    function For(key: Key): Policy {
      if key in ruled then ruled[key] else usual
    }
  }

  datatype Result<+T> = Ok(value: T) | Err(reason: Reason)

  function All(m: Message): seq<Record> {
    m.answers + m.authorities + m.additionals
  }

  /** An answer that is newer knowledge: whole, successful, and not tied to one client. */
  predicate Supersedes(m: Message) {
    && m.edns != Foreign
    && !m.truncated && !m.signed
    && (m.code == NoError || m.code == NXDomain)
  }

  predicate IsNegative(kind: nat, m: Message) {
    m.code == NXDomain || forall i :: 0 <= i < |m.answers| ==> m.answers[i].data.Kind() != kind
  }

  // ----- The CNAME chain of a negative answer -----

  /** The link of every owner, unless some answer is no CNAME of the question's
      class or an owner has two targets. */
  function Targets(answers: seq<Record>): Option<map<Name, Name>> {
    if answers == [] then Some(map[])
    else
      var rest, last := Targets(answers[..|answers| - 1]), answers[|answers| - 1];
      if rest.None? || !last.data.Cname? || last.class_ != IN then None
      else if last.name in rest.value && rest.value[last.name] != last.data.target then None
      else Some(rest.value[last.name := last.data.target])
  }

  function Walk(targets: map<Name, Name>, name: Name, hops: nat): Option<Name> {
    if hops == 0 then Some(name)
    else
      var at := Walk(targets, name, hops - 1);
      if at.None? || at.value !in targets then None else Some(targets[at.value])
  }

  /** Where the chain from `name` ends, if one hop per owner gets there. */
  function ChainEnd(answers: seq<Record>, name: Name): Option<Name> {
    var targets := Targets(answers);
    if targets.None? then None
    else
      var end := Walk(targets.value, name, |targets.value|);
      if end.None? || end.value in targets.value then None else end
  }

  /** Builds the links, then makes one hop for every owner. */
  method FollowChain(answers: seq<Record>, name: Name) returns (end: Option<Name>)
    ensures end == ChainEnd(answers, name)
  {
    var targets: map<Name, Name> := map[];
    for i := 0 to |answers|
      invariant Targets(answers[..i]) == Some(targets)
    {
      var rr := answers[i];
      assert answers[..i + 1][..i] == answers[..i];
      if !rr.data.Cname? || rr.class_ != IN || (rr.name in targets && targets[rr.name] != rr.data.target) {
        NoTargets(answers, i + 1);
        return None;
      }
      targets := targets[rr.name := rr.data.target];
    }
    assert answers[..|answers|] == answers;
    var terminal := name;
    for hop := 0 to |targets|
      invariant Walk(targets, name, hop) == Some(terminal)
    {
      if terminal !in targets {
        Stranded(targets, name, hop, |targets|);
        return None;
      }
      terminal := targets[terminal];
    }
    return if terminal in targets then None else Some(terminal);
  }

  lemma {:induction false} NoTargets(answers: seq<Record>, i: nat)
    requires i <= |answers| && Targets(answers[..i]).None?
    ensures Targets(answers).None?
    decreases |answers| - i
  {
    if i == |answers| {
      assert answers[..i] == answers;
    } else {
      assert answers[..i + 1][..i] == answers[..i];
      NoTargets(answers, i + 1);
    }
  }

  lemma {:induction false} Stranded(targets: map<Name, Name>, name: Name, hop: nat, hops: nat)
    requires hop < hops && Walk(targets, name, hop).Some? && Walk(targets, name, hop).value !in targets
    ensures Walk(targets, name, hops).None?
  {
    if hop + 1 < hops {
      Stranded(targets, name, hop, hops - 1);
    }
  }

  predicate IsLink(rr: Record, from: Name, to: Name) {
    rr.name == from && rr.class_ == IN && rr.data == Cname(to)
  }

  /** Step `i` of the path is one of the answers. */
  ghost predicate Given(answers: seq<Record>, path: seq<Name>, i: nat)
    requires i + 1 < |path|
  {
    exists k :: 0 <= k < |answers| && IsLink(answers[k], path[i], path[i + 1])
  }

  /** Answer `k` is one of the steps of the path. */
  ghost predicate Taken(answers: seq<Record>, path: seq<Name>, k: nat)
    requires k < |answers|
  {
    exists i :: 0 <= i < |path| - 1 && IsLink(answers[k], path[i], path[i + 1])
  }

  lemma GivenAt(answers: seq<Record>, path: seq<Name>, i: nat) returns (k: nat)
    requires i + 1 < |path| && Given(answers, path, i)
    ensures k < |answers| && IsLink(answers[k], path[i], path[i + 1])
  {
    k :| 0 <= k < |answers| && IsLink(answers[k], path[i], path[i + 1]);
  }

  lemma TakenAt(answers: seq<Record>, path: seq<Name>, k: nat) returns (i: nat)
    requires k < |answers| && Taken(answers, path, k)
    ensures i + 1 < |path| && IsLink(answers[k], path[i], path[i + 1])
  {
    i :| 0 <= i < |path| - 1 && IsLink(answers[k], path[i], path[i + 1]);
  }

  /** One simple path that starts at `name`, takes every answer as a link and
      leaves none over: no fork, cycle, gap or unrelated owner. */
  ghost predicate SimpleChain(answers: seq<Record>, name: Name, path: seq<Name>) {
    && path != []
    && path[0] == name
    && NoDuplicates(path)
    && (forall i :: 0 <= i < |path| - 1 ==> Given(answers, path, i))
    && (forall k :: 0 <= k < |answers| ==> Taken(answers, path, k))
  }

  /** The answers are links and no owner has two targets. */
  ghost predicate Consistent(answers: seq<Record>) {
    && (forall k :: 0 <= k < |answers| ==> answers[k].data.Cname? && answers[k].class_ == IN)
    && (forall j, k :: 0 <= j < |answers| && 0 <= k < |answers| && answers[j].name == answers[k].name ==>
          answers[j].data == answers[k].data)
  }

  ghost predicate Owns(answers: seq<Record>, t: map<Name, Name>, x: Name)
    requires x in t
  {
    exists k :: 0 <= k < |answers| && IsLink(answers[k], x, t[x])
  }

  ghost predicate LinksOf(answers: seq<Record>, t: map<Name, Name>) {
    && (forall k :: 0 <= k < |answers| ==>
          answers[k].name in t && IsLink(answers[k], answers[k].name, t[answers[k].name]))
    && (forall x :: x in t ==> Owns(answers, t, x))
  }

  lemma {:induction false} TargetsMeans(answers: seq<Record>)
    ensures Targets(answers).Some? ==> LinksOf(answers, Targets(answers).value)
    ensures Targets(answers).Some? <==> Consistent(answers)
  {
    if answers != [] {
      var n := |answers| - 1;
      TargetsMeans(answers[..n]);
      if Targets(answers).Some? {
        LinksExtend(answers, Targets(answers[..n]).value);
      } else if Consistent(answers) {
        ConsistentPrefix(answers);
      }
    }
  }

  lemma ConsistentPrefix(answers: seq<Record>)
    requires answers != [] && Consistent(answers)
    ensures var n := |answers| - 1;
      && Consistent(answers[..n])
      && forall t :: LinksOf(answers[..n], t) && answers[n].name in t ==> t[answers[n].name] == answers[n].data.target
  {
    var n := |answers| - 1;
    forall t | LinksOf(answers[..n], t) && answers[n].name in t
      ensures t[answers[n].name] == answers[n].data.target
    {
      assert Owns(answers[..n], t, answers[n].name);
      var k :| 0 <= k < n && IsLink(answers[..n][k], answers[n].name, t[answers[n].name]);
      assert answers[k].name == answers[n].name;
    }
  }

  lemma LinksExtend(answers: seq<Record>, t: map<Name, Name>)
    requires answers != []
    requires var last := answers[|answers| - 1];
      && LinksOf(answers[..|answers| - 1], t)
      && last.data.Cname? && last.class_ == IN && (last.name in t ==> t[last.name] == last.data.target)
    ensures var last := answers[|answers| - 1]; LinksOf(answers, t[last.name := last.data.target])
    ensures Consistent(answers)
  {
    var n := |answers| - 1;
    var last := answers[n];
    var longer := t[last.name := last.data.target];
    forall k | 0 <= k < |answers|
      ensures answers[k].name in longer && IsLink(answers[k], answers[k].name, longer[answers[k].name])
    {
      assert k < n ==> answers[..n][k] == answers[k];
    }
    forall x | x in longer
      ensures Owns(answers, longer, x)
    {
      if x == last.name {
        assert IsLink(answers[n], x, longer[x]);
      } else {
        assert Owns(answers[..n], t, x);
        var k :| 0 <= k < n && IsLink(answers[..n][k], x, t[x]);
        assert IsLink(answers[k], x, longer[x]);
      }
    }
  }

  lemma {:induction false} WalkStarts(t: map<Name, Name>, name: Name, i: nat, n: nat)
    requires i <= n && Walk(t, name, n).Some?
    ensures Walk(t, name, i).Some?
    ensures i < n ==> Walk(t, name, i).value in t && Walk(t, name, i + 1) == Some(t[Walk(t, name, i).value])
  {
    if i < n {
      WalkStarts(t, name, i, n - 1);
    }
  }

  lemma {:induction false} WalkRepeats(t: map<Name, Name>, name: Name, i: nat, j: nat, k: nat)
    requires Walk(t, name, i) == Walk(t, name, j)
    ensures Walk(t, name, i + k) == Walk(t, name, j + k)
  {
    if k > 0 {
      WalkRepeats(t, name, i, j, k - 1);
    }
  }

  ghost function Path(t: map<Name, Name>, name: Name, n: nat): (p: seq<Name>)
    requires Walk(t, name, n).Some?
    ensures |p| == n + 1 && p[0] == name
    ensures forall i :: 0 <= i <= n ==> Walk(t, name, i) == Some(p[i])
  {
    if n == 0 then [name] else Path(t, name, n - 1) + [Walk(t, name, n).value]
  }

  /** A walk that ends outside the owners never met a name twice: a repeated
      name would lead back to where it has been, for ever. */
  lemma PathDistinct(t: map<Name, Name>, name: Name, n: nat)
    requires Walk(t, name, n).Some? && Walk(t, name, n).value !in t
    ensures NoDuplicates(Path(t, name, n))
  {
    var p := Path(t, name, n);
    forall i, j | 0 <= i < j < |p| ensures p[i] != p[j] {
      if p[i] == p[j] {
        WalkRepeats(t, name, i, j, n - j);
        WalkStarts(t, name, i + n - j, n);
      }
    }
  }

  lemma Pigeonhole<T(!new)>(p: seq<T>, keys: set<T>, x: T)
    requires NoDuplicates(p) && (forall y :: y in p ==> y in keys) && |p| == |keys| && x in keys
    ensures x in p
  {
    var met := set y | y in p;
    ListedSize(p, met);
    if x !in met {
      assert met <= keys - {x};
      SubsetSize(met, keys - {x});
    }
  }

  /** The hop count is a proof: as many hops as owners that end at a non-owner
      have visited every owner exactly once. */
  lemma WalkIsChain(answers: seq<Record>, name: Name)
    requires ChainEnd(answers, name).Some?
    ensures var t := Targets(answers).value;
      SimpleChain(answers, name, Path(t, name, |t|))
  {
    TargetsMeans(answers);
    var t := Targets(answers).value;
    var n := |t|;
    var p := Path(t, name, n);
    PathDistinct(t, name, n);
    forall i | 0 <= i < n
      ensures p[i] in t && t[p[i]] == p[i + 1]
    {
      WalkStarts(t, name, i, n);
    }
    forall i | 0 <= i < |p| - 1
      ensures Given(answers, p, i)
    {
      assert Owns(answers, t, p[i]);
    }
    assert NoDuplicates(p[..n]);
    forall k | 0 <= k < |answers|
      ensures Taken(answers, p, k)
    {
      Pigeonhole(p[..n], t.Keys, answers[k].name);
      var i :| 0 <= i < n && p[..n][i] == answers[k].name;
      assert IsLink(answers[k], p[i], p[i + 1]);
    }
  }

  lemma ChainConsistent(answers: seq<Record>, name: Name, path: seq<Name>)
    requires SimpleChain(answers, name, path)
    ensures Consistent(answers)
  {
    hide Given, Taken;
    forall k | 0 <= k < |answers|
      ensures answers[k].data.Cname? && answers[k].class_ == IN
    {
      var i := TakenAt(answers, path, k);
    }
    forall j, k | 0 <= j < |answers| && 0 <= k < |answers| && answers[j].name == answers[k].name
      ensures answers[j].data == answers[k].data
    {
      var a := TakenAt(answers, path, j);
      var b := TakenAt(answers, path, k);
      assert a == b;
    }
  }

  lemma OwnerAt(answers: seq<Record>, t: map<Name, Name>, x: Name) returns (k: nat)
    requires x in t && Owns(answers, t, x)
    ensures k < |answers| && IsLink(answers[k], x, t[x])
  {
    k :| 0 <= k < |answers| && IsLink(answers[k], x, t[x]);
  }

  lemma ChainOwners(answers: seq<Record>, name: Name, path: seq<Name>)
    requires SimpleChain(answers, name, path) && Targets(answers).Some?
    ensures var t := Targets(answers).value;
      && |t| == |path| - 1
      && (forall i :: 0 <= i < |path| - 1 ==> path[i] in t && t[path[i]] == path[i + 1])
      && path[|path| - 1] !in t
  {
    hide Given, Taken, Owns, Targets;
    TargetsMeans(answers);
    var t := Targets(answers).value;
    var m := |path| - 1;
    forall i | 0 <= i < m ensures path[i] in t && t[path[i]] == path[i + 1] {
      var k := GivenAt(answers, path, i);
    }
    forall x | x in t ensures x in path[..m] {
      var k := OwnerAt(answers, t, x);
      var i := TakenAt(answers, path, k);
      assert path[..m][i] == x;
    }
    assert Lists(path[..m], t.Keys);
    ListedSize(path[..m], t.Keys);
    assert path[m] !in path[..m];
  }

  lemma {:induction false} WalkAlong(t: map<Name, Name>, path: seq<Name>, i: nat)
    requires i < |path| && forall j :: 0 <= j < |path| - 1 ==> path[j] in t && t[path[j]] == path[j + 1]
    ensures Walk(t, path[0], i) == Some(path[i])
  {
    if i > 0 {
      WalkAlong(t, path, i - 1);
    }
  }

  /** The chain checks pass exactly when the answers are one simple path from
      the question name to a name that owns no link. */
  lemma ChainEndIff(answers: seq<Record>, name: Name, end: Name)
    ensures ChainEnd(answers, name) == Some(end)
       <==> exists path :: SimpleChain(answers, name, path) && path[|path| - 1] == end
  {
    if ChainEnd(answers, name) == Some(end) {
      WalkIsChain(answers, name);
      var t := Targets(answers).value;
      assert Path(t, name, |t|)[|t|] == end;
    }
    forall path | SimpleChain(answers, name, path) && path[|path| - 1] == end
      ensures ChainEnd(answers, name) == Some(end)
    {
      ChainConsistent(answers, name, path);
      TargetsMeans(answers);
      ChainOwners(answers, name, path);
      WalkAlong(Targets(answers).value, path, |path| - 1);
    }
  }

  // ----- Negative lifetimes -----

  function SoaTtl(rr: Record): nat
    requires rr.data.Soa?
  {
    Min(rr.ttl, rr.data.minimum)
  }

  /** The least lifetime of the SOA records that cover the question. */
  function PlainSoa(authorities: seq<Record>, name: Name): Option<nat> {
    if authorities == [] then None
    else
      var rest, rr := PlainSoa(authorities[..|authorities| - 1], name), authorities[|authorities| - 1];
      if rr.data.Soa? && rr.class_ == IN && ZoneOf(rr.name, name)
      then Some(if rest.Some? then Min(rest.value, SoaTtl(rr)) else SoaTtl(rr))
      else rest
  }

  datatype Seen = Seen(owner: Name, data: RData, lifetime: nat)

  /** The one SOA that proves a chain's end negative: every SOA record must cover
      the end of the chain and be the same record. */
  function ChainSoa(authorities: seq<Record>, end: Name): Result<Option<Seen>> {
    if authorities == [] then Ok(None)
    else
      var rest, rr := ChainSoa(authorities[..|authorities| - 1], end), authorities[|authorities| - 1];
      if rest.Err? || !rr.data.Soa? then rest
      else AddSoa(rest.value, rr, end)
  }

  function AddSoa(seen: Option<Seen>, rr: Record, end: Name): Result<Option<Seen>>
    requires rr.data.Soa?
  {
    if rr.class_ != IN || !ZoneOf(rr.name, end) then Err(NegativeWithoutSoa)
    else if seen.Some? && (seen.value.owner != rr.name || seen.value.data != rr.data) then Err(UncacheableResponse)
    else Ok(Some(Seen(rr.name, rr.data, if seen.Some? then Min(seen.value.lifetime, SoaTtl(rr)) else SoaTtl(rr))))
  }

  /** The record is an SOA of the class for a zone that holds `name`. */
  predicate Covers(rr: Record, name: Name) {
    rr.data.Soa? && rr.class_ == IN && ZoneOf(rr.name, name)
  }

  /** `t` is the least lifetime of the records `chosen` picks. */
  ghost predicate Least(records: seq<Record>, chosen: Record -> bool, t: nat)
    requires forall rr :: chosen(rr) ==> rr.data.Soa?
  {
    && (exists rr :: rr in records && chosen(rr) && SoaTtl(rr) == t)
    && (forall rr :: rr in records && chosen(rr) ==> t <= SoaTtl(rr))
  }

  /** A plain negative answer has a lifetime exactly if some SOA covers the
      question, and it is the least of those that do. */
  lemma {:induction false} PlainSoaIsLeast(authorities: seq<Record>, name: Name)
    ensures PlainSoa(authorities, name).Some? <==> exists rr :: rr in authorities && Covers(rr, name)
    ensures PlainSoa(authorities, name).Some? ==>
      Least(authorities, (rr: Record) => Covers(rr, name), PlainSoa(authorities, name).value)
  {
    if authorities != [] {
      var n := |authorities| - 1;
      var rest, last := authorities[..n], authorities[n];
      assert authorities == rest + [last];
      PlainSoaIsLeast(rest, name);
      assert Covers(last, name) ==> last in authorities;
      assert PlainSoa(rest, name).Some? ==>
        exists rr :: rr in rest && Covers(rr, name) && SoaTtl(rr) == PlainSoa(rest, name).value;
      assert forall rr :: rr in rest ==> rr in authorities;
    }
  }

  /** Every SOA record covers the end of the chain, and all are one record. */
  ghost predicate OneSoa(authorities: seq<Record>, end: Name) {
    && (forall rr :: rr in authorities && rr.data.Soa? ==> Covers(rr, end))
    && (forall a, b :: a in authorities && b in authorities && a.data.Soa? && b.data.Soa? ==>
          a.name == b.name && a.data == b.data)
  }

  /** The end of a chain is proved negative exactly if all SOA records cover it and
      are one record. */
  lemma {:induction false} ChainSoaIff(authorities: seq<Record>, end: Name)
    ensures ChainSoa(authorities, end).Ok? <==> OneSoa(authorities, end)
    ensures ChainSoa(authorities, end).Ok? ==>
      var seen := ChainSoa(authorities, end).value;
      && (seen.Some? <==> exists rr :: rr in authorities && rr.data.Soa?)
      && (seen.Some? ==>
            forall rr :: rr in authorities && rr.data.Soa? ==>
                           rr.name == seen.value.owner && rr.data == seen.value.data)
  {
    hide ZoneOf;
    if authorities != [] {
      var n := |authorities| - 1;
      var rest, last := authorities[..n], authorities[n];
      assert authorities == rest + [last];
      assert last in authorities && forall rr :: rr in rest ==> rr in authorities;
      ChainSoaIff(rest, end);
    }
  }

  /** The lifetime that an SOA proves is the least of all SOA records. */
  lemma {:induction false} ChainSoaIsLeast(authorities: seq<Record>, end: Name)
    requires ChainSoa(authorities, end).Ok? && ChainSoa(authorities, end).value.Some?
    ensures Least(authorities, (rr: Record) => rr.data.Soa?, ChainSoa(authorities, end).value.value.lifetime)
  {
    hide ZoneOf;
    var n := |authorities| - 1;
    var rest, last := authorities[..n], authorities[n];
    assert authorities == rest + [last];
    assert last in authorities && forall rr :: rr in rest ==> rr in authorities;
    ChainSoaIff(rest, end);
    if ChainSoa(rest, end).value.Some? {
      ChainSoaIsLeast(rest, end);
      var t := ChainSoa(rest, end).value.value.lifetime;
      var rr :| rr in rest && rr.data.Soa? && SoaTtl(rr) == t;
      assert rr in authorities;
    }
  }

  function CnameNegativeTtl(name: Name, m: Message): Result<nat> {
    var end := ChainEnd(m.answers, name);
    if end.None? then Err(UncacheableResponse)
    else
      var soa := ChainSoa(m.authorities, end.value);
      if soa.Err? then Err(soa.reason)
      else if soa.value.None? then Err(NegativeWithoutSoa)
      else Ok(soa.value.value.lifetime)
  }

  method ChainLifetime(name: Name, m: Message) returns (r: Result<nat>)
    ensures r == CnameNegativeTtl(name, m)
  {
    var end := FollowChain(m.answers, name);
    if end.None? {
      return Err(UncacheableResponse);
    }
    var seen: Option<Seen> := None;
    for i := 0 to |m.authorities|
      invariant ChainSoa(m.authorities[..i], end.value) == Ok(seen)
    {
      var rr := m.authorities[i];
      assert m.authorities[..i + 1][..i] == m.authorities[..i];
      if rr.data.Soa? {
        var next := AddSoa(seen, rr, end.value);
        if next.Err? {
          NoSoa(m.authorities, end.value, i + 1);
          return Err(next.reason);
        }
        seen := next.value;
      }
    }
    assert m.authorities[..|m.authorities|] == m.authorities;
    return if seen.None? then Err(NegativeWithoutSoa) else Ok(seen.value.lifetime);
  }

  lemma {:induction false} NoSoa(authorities: seq<Record>, end: Name, i: nat)
    requires i <= |authorities| && ChainSoa(authorities[..i], end).Err?
    ensures ChainSoa(authorities, end) == ChainSoa(authorities[..i], end)
    decreases |authorities| - i
  {
    if i == |authorities| {
      assert authorities[..i] == authorities;
    } else {
      assert authorities[..i + 1][..i] == authorities[..i];
      NoSoa(authorities, end, i + 1);
    }
  }

  function NegativeTtl(name: Name, kind: nat, m: Message): Result<nat> {
    if m.answers == [] then
      var ttl := PlainSoa(m.authorities, name);
      if ttl.Some? then Ok(ttl.value) else Err(NegativeWithoutSoa)
    else if kind == CNAME then Err(UncacheableResponse)
    else CnameNegativeTtl(name, m)
  }

  // ----- Preparation -----

  /** Records capped for storage, and the least lifetime so far. */
  datatype Capped = Capped(records: seq<Record>, lifetime: nat)

  function CapOne(c: Capped, rr: Record, maxTtl: nat, negative: bool): Result<Capped> {
    if rr.data.Kind() == SIG || rr.data.Kind() == TSIG then Err(UncacheableResponse)
    else if rr.ttl > MAX_TTL then Err(TtlZero)
    else
      var ttl := Min(rr.ttl, maxTtl);
      var kept := if negative && rr.data.Soa? then Min(ttl, c.lifetime) else ttl;
      Ok(Capped(c.records + [rr.(ttl := kept)], Min(c.lifetime, kept)))
  }

  function CapRecords(records: seq<Record>, maxTtl: nat, negative: bool, lifetime: nat): Result<Capped> {
    if records == [] then Ok(Capped([], lifetime))
    else
      var rest := CapRecords(records[..|records| - 1], maxTtl, negative, lifetime);
      if rest.Err? then rest else CapOne(rest.value, records[|records| - 1], maxTtl, negative)
  }

  datatype Prepared = Prepared(stored: Message, lifetime: nat, negative: bool)

  /** The message with its records replaced, section by section. */
  function WithRecords(m: Message, records: seq<Record>): Message
    requires |records| == |All(m)|
  {
    var a, b := |m.answers|, |m.answers| + |m.authorities|;
    m.(edns := Plain, answers := records[..a], authorities := records[a..b], additionals := records[b..])
  }

  /** The bound every record's lifetime is lowered from. */
  function LifetimeBound(name: Name, kind: nat, m: Message, policy: Policy): Result<nat> {
    if !IsNegative(kind, m) then Ok(policy.maxTtl)
    else
      var ttl := NegativeTtl(name, kind, m);
      if ttl.Err? then Err(ttl.reason) else Ok(Min(Min(policy.maxTtl, policy.negativeCap), ttl.value))
  }

  function Prepare(name: Name, kind: nat, m: Message, policy: Policy): Result<Prepared> {
    if m.edns != Plain then Err(UnsupportedEdns)
    else
      var bound := LifetimeBound(name, kind, m, policy);
      if bound.Err? then Err(bound.reason)
      else
        var capped := CapRecords(All(m), policy.maxTtl, IsNegative(kind, m), bound.value);
        if capped.Err? then Err(capped.reason)
        else if capped.value.lifetime == 0 then Err(TtlZero)
        else
          CappedShape(All(m), policy.maxTtl, IsNegative(kind, m), bound.value);
          Ok(Prepared(WithRecords(m, capped.value.records), capped.value.lifetime, IsNegative(kind, m)))
  }

  method PrepareResponse(name: Name, kind: nat, m: Message, policy: Policy) returns (r: Result<Prepared>)
    ensures r == Prepare(name, kind, m, policy)
  {
    if m.edns != Plain {
      return Err(UnsupportedEdns);
    }
    var negative := IsNegative(kind, m);
    var lifetime := policy.maxTtl;
    if negative {
      var ttl;
      if m.answers == [] {
        var soa := PlainSoa(m.authorities, name);
        ttl := if soa.Some? then Ok(soa.value) else Err(NegativeWithoutSoa);
      } else if kind == CNAME {
        return Err(UncacheableResponse);
      } else {
        ttl := ChainLifetime(name, m);
      }
      if ttl.Err? {
        return Err(ttl.reason);
      }
      lifetime := Min(Min(lifetime, policy.negativeCap), ttl.value);
    }
    var capped := CapAll(All(m), policy.maxTtl, negative, lifetime);
    if capped.Err? {
      return Err(capped.reason);
    }
    if capped.value.lifetime == 0 {
      return Err(TtlZero);
    }
    CappedShape(All(m), policy.maxTtl, negative, lifetime);
    return Ok(Prepared(WithRecords(m, capped.value.records), capped.value.lifetime, negative));
  }

  /** Lowers the lifetime record by record. */
  method CapAll(records: seq<Record>, maxTtl: nat, negative: bool, bound: nat) returns (r: Result<Capped>)
    ensures r == CapRecords(records, maxTtl, negative, bound)
  {
    var c := Capped([], bound);
    for i := 0 to |records|
      invariant CapRecords(records[..i], maxTtl, negative, bound) == Ok(c)
    {
      assert records[..i + 1][..i] == records[..i];
      var next := CapOne(c, records[i], maxTtl, negative);
      if next.Err? {
        NoCap(records, maxTtl, negative, bound, i + 1);
        return next;
      }
      c := next.value;
    }
    assert records[..|records|] == records;
    return Ok(c);
  }

  lemma {:induction false} NoCap(records: seq<Record>, maxTtl: nat, negative: bool, bound: nat, i: nat)
    requires i <= |records| && CapRecords(records[..i], maxTtl, negative, bound).Err?
    ensures CapRecords(records, maxTtl, negative, bound) == CapRecords(records[..i], maxTtl, negative, bound)
    decreases |records| - i
  {
    if i == |records| {
      assert records[..i] == records;
    } else {
      assert records[..i + 1][..i] == records[..i];
      NoCap(records, maxTtl, negative, bound, i + 1);
    }
  }

  /** A record that no response may carry into the cache. */
  predicate Barred(rr: Record) {
    rr.data.Kind() == SIG || rr.data.Kind() == TSIG || rr.ttl > MAX_TTL
  }

  predicate SameButTtl(a: Record, b: Record) {
    a.name == b.name && a.class_ == b.class_ && a.data == b.data
  }

  /** Capping succeeds exactly without barred records, keeps every record, and
      leaves no record below the lifetime. */
  lemma {:induction false} CappedShape(records: seq<Record>, maxTtl: nat, negative: bool, bound: nat)
    ensures var c := CapRecords(records, maxTtl, negative, bound);
      && (c.Ok? <==> forall k :: 0 <= k < |records| ==> !Barred(records[k]))
      && (c.Ok? ==>
            && |c.value.records| == |records|
            && c.value.lifetime <= bound
            && forall k :: 0 <= k < |records| ==>
                 && SameButTtl(c.value.records[k], records[k])
                 && c.value.lifetime <= c.value.records[k].ttl <= records[k].ttl)
  {
    if records != [] {
      var n := |records| - 1;
      CappedShape(records[..n], maxTtl, negative, bound);
      assert records == records[..n] + [records[n]];
    }
  }

  /** A floor under every record, the cap and the bound is a floor under the
      lifetime. */
  lemma {:induction false} CappedFloor(records: seq<Record>, maxTtl: nat, negative: bool, bound: nat, floor: nat)
    requires floor <= bound && floor <= maxTtl && forall k :: 0 <= k < |records| ==> floor <= records[k].ttl
    requires CapRecords(records, maxTtl, negative, bound).Ok?
    ensures floor <= CapRecords(records, maxTtl, negative, bound).value.lifetime
  {
    if records != [] {
      CappedFloor(records[..|records| - 1], maxTtl, negative, bound, floor);
    }
  }

  /** A stored record never outlives the policy. */
  lemma {:induction false} CappedCeiling(records: seq<Record>, maxTtl: nat, negative: bool, bound: nat)
    requires CapRecords(records, maxTtl, negative, bound).Ok? && bound <= maxTtl
    ensures var c := CapRecords(records, maxTtl, negative, bound).value;
      c.lifetime <= maxTtl && forall k :: 0 <= k < |c.records| ==> c.records[k].ttl <= Min(maxTtl, MAX_TTL)
  {
    if records != [] {
      CappedCeiling(records[..|records| - 1], maxTtl, negative, bound);
    }
  }

  // ----- What preparation means -----

  /** The response answers the question: it succeeded and holds a record of the
      asked type. */
  ghost predicate Answers(kind: nat, m: Message) {
    m.code != NXDomain && exists rr :: rr in m.answers && rr.data.Kind() == kind
  }

  /** `t` is the lifetime that the authorities prove for a response that answers
      nothing: by an SOA that covers the question, or by the one SOA that covers the
      end of the chain which the answers form. */
  ghost predicate Proves(name: Name, kind: nat, m: Message, t: nat) {
    if m.answers == [] then Least(m.authorities, (rr: Record) => Covers(rr, name), t)
    else
      && kind != CNAME
      && (exists path :: SimpleChain(m.answers, name, path) && OneSoa(m.authorities, path[|path| - 1]))
      && Least(m.authorities, (rr: Record) => rr.data.Soa?, t)
  }

  ghost predicate SmallestOf(t: nat, values: set<nat>) {
    t in values && forall v :: v in values ==> t <= v
  }

  ghost function Ttls(records: seq<Record>): set<nat> {
    set rr | rr in records :: rr.ttl
  }

  lemma LeastIsUnique(records: seq<Record>, chosen: Record -> bool, s: nat, t: nat)
    requires forall rr :: chosen(rr) ==> rr.data.Soa?
    requires Least(records, chosen, s) && Least(records, chosen, t)
    ensures s == t
  {
  }

  lemma AnswersIff(kind: nat, m: Message)
    ensures IsNegative(kind, m) <==> !Answers(kind, m)
  {
    if !IsNegative(kind, m) {
      var i :| 0 <= i < |m.answers| && m.answers[i].data.Kind() == kind;
      assert m.answers[i] in m.answers;
    }
  }

  /** The negative lifetime is computed exactly if it is proved. */
  lemma NegativeIff(name: Name, kind: nat, m: Message, t: nat)
    ensures NegativeTtl(name, kind, m) == Ok(t) <==> Proves(name, kind, m, t)
  {
    hide Least, SimpleChain, OneSoa, PlainSoa, ChainSoa, ChainEnd;
    if m.answers == [] {
      PlainSoaIsLeast(m.authorities, name);
      PlainProof(m, name, t);
    } else if kind != CNAME {
      ChainProof(name, m, t);
    }
  }

  lemma PlainProof(m: Message, name: Name, t: nat)
    requires m.answers == []
    ensures PlainSoa(m.authorities, name) == Some(t) <==> Least(m.authorities, (rr: Record) => Covers(rr, name), t)
  {
    hide PlainSoa;
    PlainSoaIsLeast(m.authorities, name);
    if Least(m.authorities, (rr: Record) => Covers(rr, name), t) {
      var rr :| rr in m.authorities && Covers(rr, name);
      LeastIsUnique(m.authorities, (rr: Record) => Covers(rr, name), t, PlainSoa(m.authorities, name).value);
    }
  }

  lemma ChainProof(name: Name, m: Message, t: nat)
    ensures CnameNegativeTtl(name, m) == Ok(t) <==>
      && (exists path :: SimpleChain(m.answers, name, path) && OneSoa(m.authorities, path[|path| - 1]))
      && Least(m.authorities, (rr: Record) => rr.data.Soa?, t)
  {
    hide SimpleChain, OneSoa, ChainSoa, ChainEnd, Least;
    var end := ChainEnd(m.answers, name);
    forall path | SimpleChain(m.answers, name, path) ensures path != [] && end == Some(path[|path| - 1]) {
      ChainNonEmpty(m.answers, name, path);
      ChainEndIff(m.answers, name, path[|path| - 1]);
    }
    if end.Some? {
      ChainEndIff(m.answers, name, end.value);
      ChainSoaIff(m.authorities, end.value);
      if ChainSoa(m.authorities, end.value).Ok? {
        SoaProof(m, end.value, t);
      }
    }
  }

  lemma ChainNonEmpty(answers: seq<Record>, name: Name, path: seq<Name>)
    requires SimpleChain(answers, name, path)
    ensures path != []
  {
  }

  lemma SoaProof(m: Message, end: Name, t: nat)
    requires ChainSoa(m.authorities, end).Ok?
    ensures var seen := ChainSoa(m.authorities, end).value;
      (seen.Some? && seen.value.lifetime == t) <==> Least(m.authorities, (rr: Record) => rr.data.Soa?, t)
  {
    hide ChainSoa, OneSoa;
    ChainSoaIff(m.authorities, end);
    var seen := ChainSoa(m.authorities, end).value;
    if seen.Some? {
      ChainSoaIsLeast(m.authorities, end);
      if Least(m.authorities, (rr: Record) => rr.data.Soa?, t) {
        LeastIsUnique(m.authorities, (rr: Record) => rr.data.Soa?, t, seen.value.lifetime);
      }
    }
  }

  /** What a stored record is capped to: the policy, and for the SOA of a negative
      answer also the bound and every record up to it. */
  ghost predicate KeptTtl(records: seq<Record>, k: nat, maxTtl: nat, negative: bool, bound: nat, ttl: nat)
    requires k < |records|
  {
    if negative && records[k].data.Soa? then SmallestOf(ttl, {bound} + Ttls(records[..k + 1]))
    else ttl == Min(records[k].ttl, maxTtl)
  }

  lemma TtlsOn(records: seq<Record>)
    requires records != []
    ensures Ttls(records) == Ttls(records[..|records| - 1]) + {records[|records| - 1].ttl}
  {
    assert records == records[..|records| - 1] + [records[|records| - 1]];
  }

  /** The lifetime is the smallest of the bound and all TTLs, and every record is
      capped exactly. */
  lemma {:induction false} CappedExactly(records: seq<Record>, maxTtl: nat, negative: bool, bound: nat)
    requires bound <= maxTtl && CapRecords(records, maxTtl, negative, bound).Ok?
    ensures var c := CapRecords(records, maxTtl, negative, bound).value;
      && |c.records| == |records|
      && SmallestOf(c.lifetime, {bound} + Ttls(records))
      && forall k :: 0 <= k < |records| ==> KeptTtl(records, k, maxTtl, negative, bound, c.records[k].ttl)
  {
    if records != [] {
      var n := |records| - 1;
      var rest, last := records[..n], records[n];
      CappedExactly(rest, maxTtl, negative, bound);
      TtlsOn(records);
      var before := CapRecords(rest, maxTtl, negative, bound).value;
      var c := CapRecords(records, maxTtl, negative, bound).value;
      assert c.lifetime == Min(before.lifetime, last.ttl);
      forall k | 0 <= k < |records| ensures KeptTtl(records, k, maxTtl, negative, bound, c.records[k].ttl) {
        if k < n {
          assert rest[..k + 1] == records[..k + 1] && c.records[k] == before.records[k];
          assert KeptTtl(rest, k, maxTtl, negative, bound, before.records[k].ttl);
        } else {
          assert records[..n + 1] == records;
        }
      }
    }
  }

  /** The times that bound how long a response may be kept: the policy's, those of
      all records and, for a negative answer, what the authorities prove. */
  ghost function Bounds(m: Message, policy: Policy, negative: bool, proof: nat): set<nat> {
    {policy.maxTtl} + (if negative then {policy.negativeCap, proof} else {}) + Ttls(All(m))
  }

  /** Exactly which message is stored: the same records, section by section, with
      the TTLs that storage caps them to. */
  ghost predicate StoredTtls(m: Message, policy: Policy, negative: bool, proof: nat, stored: Message) {
    && stored.code == m.code && stored.edns == Plain
    && (stored.truncated <==> m.truncated) && (stored.signed <==> m.signed)
    && |stored.answers| == |m.answers| && |stored.authorities| == |m.authorities|
    && |stored.additionals| == |m.additionals|
    && forall k :: 0 <= k < |All(m)| ==>
         && |All(stored)| == |All(m)|
         && SameButTtl(All(stored)[k], All(m)[k])
         && var bound := if negative then Min(Min(policy.maxTtl, policy.negativeCap), proof) else policy.maxTtl;
            KeptTtl(All(m), k, policy.maxTtl, negative, bound, All(stored)[k].ttl)
  }

  /** Exactly what is stored, for how long and with which TTLs. */
  ghost predicate StoredAs(m: Message, policy: Policy, negative: bool, proof: nat, p: Prepared) {
    && p.negative == negative
    && SmallestOf(p.lifetime, Bounds(m, policy, negative, proof)) && 0 < p.lifetime
    && StoredTtls(m, policy, negative, proof, p.stored)
  }

  /** A capped TTL is never above the record's own. */
  lemma KeptBelow(records: seq<Record>, k: nat, maxTtl: nat, negative: bool, bound: nat, ttl: nat)
    requires k < |records| && KeptTtl(records, k, maxTtl, negative, bound, ttl)
    ensures ttl <= records[k].ttl
  {
    assert records[..k + 1][k] == records[k];
    assert records[k].ttl in Ttls(records[..k + 1]);
  }

  /** A response can be stored: nothing in it is barred or spent, and it answers the
      question or its authorities prove that there is no answer. */
  ghost predicate Storable(name: Name, kind: nat, m: Message, policy: Policy) {
    && m.edns == Plain && 0 < policy.maxTtl
    && (forall rr :: rr in All(m) ==> !Barred(rr) && 0 < rr.ttl)
    && (Answers(kind, m) || (0 < policy.negativeCap && exists t: nat :: 0 < t && Proves(name, kind, m, t)))
  }

  lemma BoundIff(name: Name, kind: nat, m: Message, policy: Policy)
    ensures var bound := LifetimeBound(name, kind, m, policy);
      && (Answers(kind, m) ==> bound == Ok(policy.maxTtl))
      && (!Answers(kind, m) ==> (bound.Ok? <==> exists t: nat :: Proves(name, kind, m, t)))
      && (forall t: nat :: !Answers(kind, m) && Proves(name, kind, m, t) ==>
            bound == Ok(Min(Min(policy.maxTtl, policy.negativeCap), t)))
  {
    hide Proves, NegativeTtl, Answers, IsNegative;
    AnswersIff(kind, m);
    forall t: nat ensures NegativeTtl(name, kind, m) == Ok(t) <==> Proves(name, kind, m, t) {
      NegativeIff(name, kind, m, t);
    }
    if NegativeTtl(name, kind, m).Ok? {
      var t := NegativeTtl(name, kind, m).value;
      assert Proves(name, kind, m, t);
    }
  }

  /** Preparation succeeds exactly for storable responses.  One stored as positive
      answers the question; one stored as negative does not and is proved to have no
      answer; and lifetime and TTLs are exactly what bounds them. */
  lemma PrepareIff(name: Name, kind: nat, m: Message, policy: Policy)
    ensures Prepare(name, kind, m, policy).Ok? <==> Storable(name, kind, m, policy)
    ensures Prepare(name, kind, m, policy).Ok? && Answers(kind, m) ==>
      StoredAs(m, policy, false, 0, Prepare(name, kind, m, policy).value)
    ensures forall t: nat :: Prepare(name, kind, m, policy).Ok? && !Answers(kind, m) && Proves(name, kind, m, t) ==>
      StoredAs(m, policy, true, t, Prepare(name, kind, m, policy).value)
  {
    hide Answers, Proves, IsNegative, LifetimeBound, CapRecords, StoredAs, SmallestOf;
    BoundIff(name, kind, m, policy);
    AnswersIff(kind, m);
    var bound := LifetimeBound(name, kind, m, policy);
    if m.edns == Plain && bound.Ok? {
      BoundBelow(name, kind, m, policy);
      CappedShape(All(m), policy.maxTtl, IsNegative(kind, m), bound.value);
      var capped := CapRecords(All(m), policy.maxTtl, IsNegative(kind, m), bound.value);
      assert capped.Ok? <==> forall rr :: rr in All(m) ==> !Barred(rr);
      if capped.Ok? {
        CappedExactly(All(m), policy.maxTtl, IsNegative(kind, m), bound.value);
        PositiveLifetime(capped.value.lifetime, bound.value, All(m));
        if Answers(kind, m) && capped.value.lifetime > 0 {
          StoredExactly(m, policy, false, 0, bound.value, capped.value);
        } else if !Answers(kind, m) {
          forall t: nat | Proves(name, kind, m, t) && capped.value.lifetime > 0
            ensures StoredAs(m, policy, true, t, Prepare(name, kind, m, policy).value)
          {
            StoredExactly(m, policy, true, t, bound.value, capped.value);
          }
        }
      }
    }
  }

  lemma BoundBelow(name: Name, kind: nat, m: Message, policy: Policy)
    requires LifetimeBound(name, kind, m, policy).Ok?
    ensures LifetimeBound(name, kind, m, policy).value <= policy.maxTtl
  {
    hide NegativeTtl;
  }

  lemma PositiveLifetime(lifetime: nat, bound: nat, records: seq<Record>)
    requires SmallestOf(lifetime, {bound} + Ttls(records))
    ensures lifetime > 0 <==> bound > 0 && forall rr :: rr in records ==> 0 < rr.ttl
  {
    if lifetime > 0 {
      forall rr | rr in records ensures 0 < rr.ttl {
        assert rr.ttl in Ttls(records);
      }
    }
  }

  lemma StoredExactly(m: Message, policy: Policy, negative: bool, proof: nat, bound: nat, c: Capped)
    requires bound == if negative then Min(Min(policy.maxTtl, policy.negativeCap), proof) else policy.maxTtl
    requires |c.records| == |All(m)| && SmallestOf(c.lifetime, {bound} + Ttls(All(m))) && 0 < c.lifetime
    requires forall k :: 0 <= k < |All(m)| ==> SameButTtl(c.records[k], All(m)[k])
    requires forall k :: 0 <= k < |All(m)| ==> KeptTtl(All(m), k, policy.maxTtl, negative, bound, c.records[k].ttl)
    ensures StoredAs(m, policy, negative, proof, Prepared(WithRecords(m, c.records), c.lifetime, negative))
  {
    hide KeptTtl, SameButTtl;
    assert All(WithRecords(m, c.records)) == c.records;
    SmallestSame(c.lifetime, m, policy, negative, proof, bound);
  }

  lemma SmallestSame(t: nat, m: Message, policy: Policy, negative: bool, proof: nat, bound: nat)
    requires bound == if negative then Min(Min(policy.maxTtl, policy.negativeCap), proof) else policy.maxTtl
    requires SmallestOf(t, {bound} + Ttls(All(m)))
    ensures SmallestOf(t, Bounds(m, policy, negative, proof))
  {
    hide All, Ttls;
  }

  /** Why a response that answers nothing is refused before its records are looked at. */
  lemma RefusalReasons(name: Name, kind: nat, m: Message, policy: Policy)
    ensures m.edns != Plain ==> Prepare(name, kind, m, policy) == Err(UnsupportedEdns)
    ensures m.edns == Plain && !Answers(kind, m) ==>
      && (m.answers == [] && (forall rr :: rr in m.authorities ==> !Covers(rr, name)) ==>
            Prepare(name, kind, m, policy) == Err(NegativeWithoutSoa))
      && (m.answers != [] && (kind == CNAME || !exists path :: SimpleChain(m.answers, name, path)) ==>
            Prepare(name, kind, m, policy) == Err(UncacheableResponse))
      && (m.answers != [] && kind != CNAME && (exists path :: SimpleChain(m.answers, name, path))
          && (forall rr :: rr in m.authorities ==> !rr.data.Soa?) ==>
            Prepare(name, kind, m, policy) == Err(NegativeWithoutSoa))
  {
    hide SimpleChain, PlainSoa, ChainSoa, ChainEnd, CapRecords, IsNegative, Answers, Covers;
    AnswersIff(kind, m);
    PlainSoaIsLeast(m.authorities, name);
    forall path | SimpleChain(m.answers, name, path)
      ensures path != [] && ChainEnd(m.answers, name) == Some(path[|path| - 1])
    {
      ChainNonEmpty(m.answers, name, path);
      ChainEndIff(m.answers, name, path[|path| - 1]);
    }
    var end := ChainEnd(m.answers, name);
    if end.Some? {
      ChainEndIff(m.answers, name, end.value);
      ChainSoaIff(m.authorities, end.value);
    }
  }
}
