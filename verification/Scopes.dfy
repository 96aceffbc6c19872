/** The ECS namespaces of cached answers (RFC 7871, section 7.3.1). */
module Scopes {
  import opened Wrappers
  import opened Networks

  /** An EDNS client subnet option. */
  datatype ClientSubnet = ClientSubnet(addr: Address, source: nat, scope: nat)

  datatype Scope =
    | NoEcs
    | Privacy(ipv4: bool)
    | Network(net: Net)
    | ExactSource(net: Net)
    | Learned(ipv4: bool)
  {
    predicate HasNet() {
      Network? || ExactSource?
    }

    /** Whether an entry of this namespace may answer a query sent with `outgoing`. */
    predicate Matches(outgoing: Option<ClientSubnet>) {
      match (this, outgoing)
      case (NoEcs, None) => true
      case (Privacy(v4), Some(ecs)) => ecs.source == 0 && v4 == IsIpv4(ecs.addr)
      case (Network(n), Some(ecs)) => ecs.source > 0 && n.prefix <= ecs.source && Contains(n, ecs.addr)
      case (ExactSource(n), Some(ecs)) =>
        && ecs.source > 0
        && n.prefix == ecs.source
        && var sent := NewNet(ecs.addr, ecs.source);
           sent.Some? && Trunc(sent.value) == n
      case (Learned(v4), Some(ecs)) => ecs.source > 0 && v4 == IsIpv4(ecs.addr)
      case _ => false
    }

    function PrefixLen(): nat {
      if HasNet() then net.prefix else 0
    }

    /** The scope prefix echoed to a client whose query carried `outgoing`. */
    function ReplyScope(outgoing: Option<ClientSubnet>): Option<nat> {
      match this
      case NoEcs => None
      case Learned(_) => if outgoing.Some? then Some(outgoing.value.source) else None
      case _ => Some(PrefixLen())
    }
  }

  /** The conservative test that decides which entries a new answer removes. */
  predicate Overlap(a: Scope, b: Scope) {
    if a.HasNet() && b.HasNet() then NetsOverlap(a.net, b.net)
    else if a.Learned? && b.HasNet() then IsIpv4(b.net.addr) == a.ipv4
    else if a.HasNet() && b.Learned? then IsIpv4(a.net.addr) == b.ipv4
    else a == b
  }

  /** Whether a learned entry answers the network an invalidation names. */
  predicate LearnedServes(entry: Scope, filter: Scope) {
    && entry.Learned?
    && filter.HasNet()
    && filter.net.prefix > 0
    && IsIpv4(filter.net.addr) == entry.ipv4
  }

  lemma OverlapSymmetric(a: Scope, b: Scope)
    ensures Overlap(a, a)
    ensures Overlap(a, b) <==> Overlap(b, a)
  {
  }

  /** Two namespaces that serve one outgoing subnet overlap, so storing either
      one removes the other. */
  lemma MatchingScopesOverlap(a: Scope, b: Scope, outgoing: Option<ClientSubnet>)
    requires a.Matches(outgoing) && b.Matches(outgoing)
    ensures Overlap(a, b)
  {
    if a.HasNet() && b.HasNet() {
      var x := outgoing.value.addr;
      MatchingNetHolds(a, outgoing.value);
      MatchingNetHolds(b, outgoing.value);
      SharedAddressNests(a.net, b.net, x);
    } else if a.HasNet() {
      MatchingNetHolds(a, outgoing.value);
    } else if b.HasNet() {
      MatchingNetHolds(b, outgoing.value);
    }
  }

  lemma MatchingNetHolds(s: Scope, ecs: ClientSubnet)
    requires s.HasNet() && s.Matches(Some(ecs))
    ensures Contains(s.net, ecs.addr)
  {
    if s.ExactSource? {
      var sent := NewNet(ecs.addr, ecs.source).value;
      assert Contains(sent, ecs.addr);
      assert Contains(Trunc(sent), ecs.addr);
    }
  }

  /** The subnet context of one forwarded query. */
  datatype Context = Context(incoming: Option<ClientSubnet>, outgoing: Option<ClientSubnet>)

  datatype EcsConfig = EcsConfig(enabled: bool, ipv4Prefix: nat, ipv6Prefix: nat)

  predicate ValidPrefixes(c: EcsConfig) {
    c.ipv4Prefix <= 32 && c.ipv6Prefix <= 128
  }

  datatype Forwarded = Ready(context: Context) | FormErr | Refused

  function Cap(addr: Address, config: EcsConfig): nat {
    if IsIpv4(addr) then config.ipv4Prefix else config.ipv6Prefix
  }

  /** Which subnet is sent upstream for a query of `peer`. */
  function PrepareContext(incoming: Option<ClientSubnet>, classIn: bool, peer: Address, config: EcsConfig): Forwarded {
    if incoming.Some? && incoming.value.scope != 0 then FormErr
    else if !config.enabled || !classIn then Ready(Context(None, None))
    else
      var client := CanonicalPeer(peer);
      if incoming.Some? then
        var ecs := incoming.value;
        var claimed := NewNet(ecs.addr, ecs.source);
        if claimed.None? then FormErr
        else if ecs.source > 0 && !Contains(claimed.value, client) then Refused
        else Outgoing(incoming, ecs.addr, Min(ecs.source, Cap(ecs.addr, config)))
      else Outgoing(incoming, client, Cap(client, config))
  }

  function Outgoing(incoming: Option<ClientSubnet>, address: Address, source: nat): Forwarded {
    var network := NewNet(address, source);
    if network.None? then FormErr
    else Ready(Context(incoming, Some(ClientSubnet(Trunc(network.value).addr, source, 0))))
  }

  /** What is sent upstream never names more of the client than the configured
      prefix, clears every host bit, and (unless the client asked for privacy)
      always covers the real peer, so no client can spend another's subnet. */
  lemma PrepareBoundsDisclosure(incoming: Option<ClientSubnet>, classIn: bool, peer: Address, config: EcsConfig)
    requires ValidPrefixes(config)
    ensures var p := PrepareContext(incoming, classIn, peer, config);
      p.Ready? && p.context.outgoing.Some? ==>
        var sent := p.context.outgoing.value;
        && sent.source <= Cap(sent.addr, config) <= |sent.addr|
        && sent.scope == 0
        && Trunced(Net(sent.addr, sent.source))
        && (sent.source > 0 ==> Contains(Net(sent.addr, sent.source), CanonicalPeer(peer)))
        && (incoming.Some? ==> sent.source <= incoming.value.source)
  {
    var p := PrepareContext(incoming, classIn, peer, config);
    if p.Ready? && p.context.outgoing.Some? {
      var client := CanonicalPeer(peer);
      if incoming.Some? {
        var ecs := incoming.value;
        var source := Min(ecs.source, Cap(ecs.addr, config));
        var sent := Net(ecs.addr, source);
        if source > 0 {
          var claimed := Net(ecs.addr, ecs.source);
          assert client[..ecs.source][..source] == client[..source];
          assert ecs.addr[..ecs.source][..source] == ecs.addr[..source];
          assert Contains(Trunc(sent), client);
        }
      } else {
        assert Contains(Trunc(Net(client, Cap(client, config))), client);
      }
    }
  }

  /** The namespace that serves only what was sent. */
  function SourceScope(ctx: Context): Option<Scope> {
    match ctx.outgoing
    case None => Some(NoEcs)
    case Some(sent) =>
      if sent.source == 0 then Some(Privacy(IsIpv4(sent.addr)))
      else
        var n := NewNet(sent.addr, sent.source);
        if n.None? then None else Some(ExactSource(Trunc(n.value)))
  }

  /** The namespace an answer may be stored under, and none for a subnet echo
      that does not belong to the sent query. */
  function ResponseScope(ctx: Context, received: Option<ClientSubnet>): Option<Scope> {
    match (ctx.outgoing, received)
    case (_, None) => SourceScope(ctx)
    case (Some(sent), Some(got)) =>
      if got.addr == sent.addr && got.source == sent.source && got.scope <= sent.source then
        if sent.source == 0 then Some(Privacy(IsIpv4(sent.addr)))
        else
          var n := NewNet(sent.addr, got.scope);
          if n.None? then None else Some(Network(Trunc(n.value)))
      else None
    case _ => None
  }

  /** Every namespace the responses assign serves the query that caused it, is
      canonical, and is never the learned one. */
  lemma StorageScopeServesItsQuery(ctx: Context, received: Option<ClientSubnet>)
    ensures forall s: Scope | SourceScope(ctx) == Some(s) || ResponseScope(ctx, received) == Some(s) ::
      s.Matches(ctx.outgoing) && !s.Learned? && (s.HasNet() ==> Trunced(s.net))
  {
    forall s: Scope | SourceScope(ctx) == Some(s) || ResponseScope(ctx, received) == Some(s)
      ensures s.Matches(ctx.outgoing) && !s.Learned? && (s.HasNet() ==> Trunced(s.net))
    {
      if s.Network? {
        var sent := ctx.outgoing.value;
        var n := NewNet(sent.addr, received.value.scope).value;
        assert Contains(n, sent.addr);
        assert Contains(Trunc(n), sent.addr);
      }
    }
  }

  /** An answer of a query sent with a nonzero subnet that is reclassified as
      learned for that family still serves the query. */
  lemma LearnedServesItsQuery(ctx: Context, s: Scope)
    requires s.ExactSource? && s.Matches(ctx.outgoing)
    ensures Learned(IsIpv4(s.net.addr)).Matches(ctx.outgoing)
  {
  }

  /** The prefix echoed to a client never exceeds the prefix that was sent, and
      it never claims more than the entry covers: a client that reuses the
      answer inside the echoed prefix (RFC 7871, section 7.3.1) stays within
      the namespace the entry serves. */
  lemma ReplyScopeIsSound(s: Scope, ecs: ClientSubnet, other: ClientSubnet)
    requires s.Matches(Some(ecs))
    requires ecs.source <= |ecs.addr|
    ensures s.ReplyScope(Some(ecs)).Some? && s.ReplyScope(Some(ecs)).value <= ecs.source
    ensures var r := s.ReplyScope(Some(ecs)).value;
      (s.Network? || s.Learned?) && other.source > 0 && r <= other.source
      && Contains(Net(ecs.addr, r), other.addr)
      ==> s.Matches(Some(other))
  {
    if s.Network? {
      assert s.net.addr[..s.net.prefix] == ecs.addr[..s.net.prefix];
    }
  }

  // ----- What a namespace serves -----

  /** The subnet that a query was sent with. */
  predicate Sent(ecs: ClientSubnet) {
    0 < ecs.source <= |ecs.addr|
  }

  function SubnetOf(ecs: ClientSubnet): Net
    requires Sent(ecs)
  {
    Net(ecs.addr, ecs.source)
  }

  /** Queries without a subnet are served without one, and queries for privacy only
      by privacy of their family. */
  lemma PlainMatches(s: Scope, ecs: ClientSubnet)
    requires ecs.source == 0
    ensures s.Matches(None) <==> s == NoEcs
    ensures s.Matches(Some(ecs)) <==> s == Privacy(IsIpv4(ecs.addr))
  {
  }

  /** A network serves exactly the subnets that lie inside it, an exact source
      exactly its own subnet, and the learned namespace exactly its family. */
  lemma SubnetMatches(s: Scope, ecs: ClientSubnet)
    requires Sent(ecs) && (s.HasNet() ==> Trunced(s.net))
    ensures s.Matches(Some(ecs)) <==>
      match s
      case Network(n) => Inside(SubnetOf(ecs), n)
      case ExactSource(n) => Inside(SubnetOf(ecs), n) && Inside(n, SubnetOf(ecs))
      case Learned(v4) => v4 == IsIpv4(ecs.addr)
      case _ => false
  {
    if s.HasNet() {
      InsideIsSubnet(SubnetOf(ecs), s.net);
      InsideIsSubnet(s.net, SubnetOf(ecs));
      if s.ExactSource? && Contains(s.net, ecs.addr) && s.net.prefix == ecs.source {
        TruncedSame(Trunc(SubnetOf(ecs)), s.net, ecs.addr);
      }
    }
  }

  /** What a response is stored for: without an echoed subnet exactly the subnet that
      was sent, and otherwise exactly the subnets inside the echoed scope. */
  lemma StoredServesExactly(ctx: Context, received: Option<ClientSubnet>, other: ClientSubnet)
    requires ctx.outgoing.Some? && Sent(ctx.outgoing.value) && Sent(other)
    requires ResponseScope(ctx, received).Some?
    ensures var s, sent := ResponseScope(ctx, received).value, ctx.outgoing.value;
      s.Matches(Some(other)) <==>
      if received.None? then Inside(SubnetOf(other), SubnetOf(sent)) && Inside(SubnetOf(sent), SubnetOf(other))
      else received.value.scope <= |sent.addr| && Inside(SubnetOf(other), Net(sent.addr, received.value.scope))
  {
    var s, sent := ResponseScope(ctx, received).value, ctx.outgoing.value;
    StorageScopeServesItsQuery(ctx, received);
    SubnetMatches(s, other);
    if received.None? {
      SameAddresses(SubnetOf(sent), SubnetOf(other));
    } else {
      SameAddresses(Net(sent.addr, received.value.scope), SubnetOf(other));
    }
  }

  /** A response belongs to the query that was sent if it echoes no subnet, or the
      same one with a scope no longer than it. */
  lemma EchoBelongs(ctx: Context, received: Option<ClientSubnet>)
    requires ctx.outgoing.Some? ==> ctx.outgoing.value.source <= |ctx.outgoing.value.addr|
    ensures ResponseScope(ctx, received).Some? <==>
      received.Some? ==>
        && ctx.outgoing.Some?
        && received.value.addr == ctx.outgoing.value.addr
        && received.value.source == ctx.outgoing.value.source
        && received.value.scope <= ctx.outgoing.value.source
  {
  }

  /** The prefix echoed to a client names exactly the addresses of the entry's
      network, or for a learned answer those of the client's own subnet. */
  lemma ReplyScopeExactly(s: Scope, ecs: ClientSubnet)
    requires Sent(ecs) && s.Matches(Some(ecs)) && (s.HasNet() ==> Trunced(s.net))
    ensures var r := s.ReplyScope(Some(ecs));
      && r.Some? && r.value <= ecs.source
      && (s.Learned? ==> r.value == ecs.source)
      && (!s.Learned? ==>
            s.HasNet() && Inside(Net(ecs.addr, r.value), s.net) && Inside(s.net, Net(ecs.addr, r.value)))
  {
    if s.HasNet() {
      MatchingNetHolds(s, ecs);
      var n: Net := Net(ecs.addr, s.net.prefix);
      assert Contains(s.net, ecs.addr) && Contains(n, s.net.addr);
      InsideIsSubnet(n, s.net);
      InsideIsSubnet(s.net, n);
    }
  }

  /** Clearing the host bits changes no inclusion. */
  lemma SameAddresses(n: Net, other: Net)
    ensures Inside(other, Trunc(n)) <==> Inside(other, n)
    ensures Inside(Trunc(n), other) <==> Inside(n, other)
  {
    forall a: Address ensures Contains(Trunc(n), a) <==> Contains(n, a) {
    }
  }

  /** The addresses that a namespace speaks for. */
  ghost predicate Ground(s: Scope, a: Address) {
    match s
    case Network(n) => Contains(n, a)
    case ExactSource(n) => Contains(n, a)
    case Learned(v4) => v4 == IsIpv4(a)
    case _ => false
  }

  /** The overlap test is exact: namespaces overlap just when they are the same or
      speak for a common address. */
  lemma OverlapIsCommonGround(a: Scope, b: Scope)
    ensures Overlap(a, b) <==> a == b || exists x :: Ground(a, x) && Ground(b, x)
  {
    if a.HasNet() && b.HasNet() {
      OverlapIsCommonAddress(a.net, b.net);
      if NetsOverlap(a.net, b.net) {
        var x :| Contains(a.net, x) && Contains(b.net, x);
        assert Ground(a, x) && Ground(b, x);
      }
      assert a == b ==> Contains(a.net, a.net.addr);
    } else if a.Learned? && b.HasNet() {
      assert Ground(b, b.net.addr);
    } else if a.HasNet() && b.Learned? {
      assert Ground(a, a.net.addr);
    }
  }

  /** Exactly when a query is refused, and exactly what is sent for it otherwise: the
      client's own subnet, or else the peer's, cut to the configured prefix. */
  lemma PrepareExactly(incoming: Option<ClientSubnet>, classIn: bool, peer: Address, config: EcsConfig)
    requires ValidPrefixes(config)
    ensures var p, used := PrepareContext(incoming, classIn, peer, config), config.enabled && classIn;
      && (p.FormErr? <==>
          incoming.Some? && (incoming.value.scope != 0 || (used && incoming.value.source > |incoming.value.addr|)))
      && (p.Refused? <==>
          && incoming.Some? && incoming.value.scope == 0 && used && 0 < incoming.value.source <= |incoming.value.addr|
          && !Contains(Net(incoming.value.addr, incoming.value.source), CanonicalPeer(peer)))
      && (p.Ready? ==> (p.context.outgoing.Some? <==> used))
      && (p.Ready? && used ==>
          var from := if incoming.Some? then incoming.value.addr else CanonicalPeer(peer);
          var limit := if |from| == 32 then config.ipv4Prefix else config.ipv6Prefix;
          var sent := p.context.outgoing.value;
          && sent.source == (if incoming.Some? then Min(incoming.value.source, limit) else limit)
          && |sent.addr| == |from| && sent.source <= |from|
          && (forall i :: 0 <= i < |from| ==> sent.addr[i] == (i < sent.source && from[i])))
  {
  }
}
