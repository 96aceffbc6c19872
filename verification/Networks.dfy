/** IP addresses and CIDR networks.  An address is its bits, most significant
    first, so that membership in a network is equality of a bit prefix. */
module Networks {
  import opened Wrappers

  type Address = a: seq<bool> | |a| == 32 || |a| == 128 witness seq(32, _ => false)

  predicate IsIpv4(a: Address) {
    |a| == 32
  }

  /** An IPv4-mapped IPv6 peer carries an IPv4 identity. */
  function CanonicalPeer(peer: Address): Address {
    if |peer| == 128 && (forall i :: 0 <= i < 80 ==> !peer[i]) && (forall i :: 80 <= i < 96 ==> peer[i])
    then peer[96..]
    else peer
  }

  datatype RawNet = Net(addr: Address, prefix: nat)

  type Net = n: RawNet | n.prefix <= |n.addr| witness Net(seq(32, _ => false), 0)

  /** A network from any address and prefix; an over-long prefix is an error. */
  function NewNet(addr: Address, prefix: nat): (r: Option<Net>)
    ensures r.Some? <==> prefix <= |addr|
    ensures r.Some? ==> r.value.addr == addr && r.value.prefix == prefix
  {
    if prefix <= |addr| then Some(Net(addr, prefix)) else None
  }

  predicate Contains(n: Net, a: Address) {
    |a| == |n.addr| && a[..n.prefix] == n.addr[..n.prefix]
  }

  /** The same network named by its first address: every host bit cleared. */
  function Trunc(n: Net): (r: Net)
    ensures r.prefix == n.prefix && |r.addr| == |n.addr|
    ensures Trunced(r)
    ensures forall a: Address {:trigger Contains(r, a)} :: Contains(r, a) <==> Contains(n, a)
  {
    var zeros := seq(|n.addr| - n.prefix, _ => false);
    var r := Net(n.addr[..n.prefix] + zeros, n.prefix);
    assert r.addr[..n.prefix] == n.addr[..n.prefix];
    r
  }

  predicate Trunced(n: Net) {
    forall i :: n.prefix <= i < |n.addr| ==> !n.addr[i]
  }

  /** The code's overlap test: one network holds the other's first address. */
  predicate NetsOverlap(a: Net, b: Net) {
    Contains(a, b.addr) || Contains(b, a.addr)
  }

  predicate Subnet(inner: Net, outer: Net) {
    outer.prefix <= inner.prefix && Contains(outer, inner.addr)
  }

  /** The address test is exact: it holds just when some address is in both. */
  lemma OverlapIsCommonAddress(a: Net, b: Net)
    ensures NetsOverlap(a, b) <==> exists x: Address :: Contains(a, x) && Contains(b, x)
  {
    assert Contains(a, a.addr) && Contains(b, b.addr);
    forall x: Address | Contains(a, x) && Contains(b, x)
      ensures NetsOverlap(a, b)
    {
      SharedAddressNests(a, b, x);
    }
  }

  /** CIDR networks are laminar: two that share an address are nested. */
  lemma SharedAddressNests(a: Net, b: Net, x: Address)
    requires Contains(a, x) && Contains(b, x)
    ensures a.prefix <= b.prefix ==> Subnet(b, a)
    ensures b.prefix <= a.prefix ==> Subnet(a, b)
    ensures NetsOverlap(a, b)
  {
    var k := Min(a.prefix, b.prefix);
    assert x[..a.prefix][..k] == x[..k] == x[..b.prefix][..k];
    assert a.addr[..a.prefix][..k] == a.addr[..k];
    assert b.addr[..b.prefix][..k] == b.addr[..k];
  }

  /** Overlap is nesting. */
  lemma OverlapNests(a: Net, b: Net)
    ensures NetsOverlap(a, b) <==> Subnet(a, b) || Subnet(b, a)
  {
    if Contains(a, b.addr) {
      SharedAddressNests(a, b, b.addr);
    } else if Contains(b, a.addr) {
      SharedAddressNests(a, b, a.addr);
    }
  }

  /** Truncated networks of one length that share an address are the same. */
  lemma TruncedSame(a: Net, b: Net, x: Address)
    requires Trunced(a) && Trunced(b) && a.prefix == b.prefix
    requires Contains(a, x) && Contains(b, x)
    ensures a == b
  {
    forall i | 0 <= i < |a.addr|
      ensures a.addr[i] == b.addr[i]
    {
      if i < a.prefix {
        assert a.addr[i] == a.addr[..a.prefix][i] == b.addr[..b.prefix][i] == b.addr[i];
      }
    }
    assert a.addr == b.addr;
  }

  /** Every address of `inner` is one of `outer`. */
  ghost predicate Inside(inner: Net, outer: Net) {
    forall a: Address :: Contains(inner, a) ==> Contains(outer, a)
  }

  /** A shorter prefix holds an address beyond any longer one. */
  lemma Escapes(inner: Net, outer: Net)
    requires inner.prefix < outer.prefix
    ensures !Inside(inner, outer)
  {
    assert Contains(inner, inner.addr);
    if Contains(outer, inner.addr) {
      var k := inner.prefix;
      var a: Address := inner.addr[k := !inner.addr[k]];
      assert a[..k] == inner.addr[..k];
      assert inner.addr[..outer.prefix][k] == outer.addr[..outer.prefix][k];
      assert a[..outer.prefix][k] != outer.addr[..outer.prefix][k];
      assert Contains(inner, a) && !Contains(outer, a);
    }
  }

  /** Inclusion of addresses is what the prefix test decides. */
  lemma InsideIsSubnet(inner: Net, outer: Net)
    ensures Inside(inner, outer) <==> Subnet(inner, outer)
  {
    assert Contains(inner, inner.addr);
    if inner.prefix < outer.prefix {
      Escapes(inner, outer);
    }
    if Subnet(inner, outer) {
      forall a: Address | Contains(inner, a) ensures Contains(outer, a) {
        assert a[..inner.prefix][..outer.prefix] == inner.addr[..inner.prefix][..outer.prefix];
      }
    }
  }
}
