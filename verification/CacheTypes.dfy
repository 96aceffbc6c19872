/** The identities the cache stores answers under. */
module CacheTypes {
  import opened Wrappers
  import opened Networks
  import opened Scopes

  const SECOND: nat := 1_000_000_000

  /** A domain name: lowercase labels, the leaf first. */
  type Name = seq<string>

  /** `zone` is `name` or one of its ancestors. */
  predicate ZoneOf(zone: Name, name: Name) {
    |zone| <= |name| && name[|name| - |zone|..] == zone
  }

  datatype Key = Key(
    name: Name,
    kind: nat,
    dnssecOk: bool,
    checkingDisabled: bool,
    recursionDesired: bool,
    edns: bool)

  /** What an invalidation names: each part that is present must match. */
  datatype Filter = Filter(name: Option<Name>, kind: Option<nat>, scope: Option<Scope>)
  {
    predicate NamesKey(key: Key) {
      && (name.Some? ==> key.name == name.value)
      && (kind.Some? ==> key.kind == kind.value)
    }

    /** The entries an invalidation removes. */
    predicate NamesEntry(key: Key, s: Scope) {
      NamesKey(key) && (scope.Some? ==> s == scope.value || LearnedServes(s, scope.value))
    }

    /** The family whose learned state an invalidation forgets: `None` when it
        forgets none, `Some(None)` for both. */
    function Family(): Option<Option<bool>> {
      match scope
      case None => Some(None)
      case Some(Learned(v4)) => Some(Some(v4))
      case Some(s) =>
        if s.HasNet() && s.net.prefix > 0 then Some(Some(IsIpv4(s.net.addr))) else None
    }

    predicate NamesClass(key: Key, ipv4: bool) {
      && NamesKey(key)
      && Family().Some?
      && (Family().value.Some? ==> Family().value.value == ipv4)
    }
  }
}
