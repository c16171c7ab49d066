/** Users, keys, addresses and the interface's peer list stay in step over every run of the peer manager. */
module WireGuardLaws {
  import opened Common
  import opened Text
  import opened IpAddresses
  import opened WireGuard

  // ---------------------------------------------------------------- addresses

  lemma AddressInjective(base: seq<int>, i: int, j: int)
    requires IsIp(base) && 1 <= i < 256 && 1 <= j < 256 && AddressText(base, i) == AddressText(base, j)
    ensures i == j
  {
    hide IpText;
    var a, b := IpText(WithLast(base, i)), IpText(WithLast(base, j));
    assert (a + "/32")[..|a + "/32"| - 3] == a && (b + "/32")[..|b + "/32"| - 3] == b;
    HostsPrintApart(base, i, j);
  }

  /** The addresses the allocator can hand out, up to host byte `n`. */
  ghost function Pool(base: seq<int>, n: int): set<string>
    requires IsIp(base) && n <= 256
  {
    set i | 2 <= i < n :: AddressText(base, i)
  }

  lemma {:induction false} PoolSize(base: seq<int>, n: int)
    requires IsIp(base) && 2 <= n <= 254
    ensures |Pool(base, n)| == n - 2
  {
    hide AddressText;
    if n == 2 {
      assert Pool(base, 2) == {};
    } else {
      PoolSize(base, n - 1);
      var last := AddressText(base, n - 1);
      forall i | 2 <= i < n - 1 ensures AddressText(base, i) != last {
        if AddressText(base, i) == last { AddressInjective(base, i, n - 1); }
      }
      assert Pool(base, n) == Pool(base, n - 1) + {last};
    }
  }

  /** The address found is the first one not in use; none is found only when all are in use. */
  lemma {:induction false} FirstFreeFinds(base: seq<int>, pool: map<string, bool>, last: int)
    requires IsIp(base) && 2 <= last <= 254
    ensures var ip := FirstFree(base, pool, last);
            && (ip.Some? ==> ip.value in Pool(base, 254) && !Used(pool, ip.value))
            && (ip.Some? ==> exists i :: last <= i < 254 && ip.value == AddressText(base, i)
                               && forall j :: last <= j < i ==> Used(pool, AddressText(base, j)))
            && (ip.None? ==> forall i :: last <= i < 254 ==> Used(pool, AddressText(base, i)))
    decreases 254 - last
  {
    hide AddressText;
    if last == 254 || !Used(pool, AddressText(base, last)) {
    } else {
      FirstFreeFinds(base, pool, last + 1);
    }
  }

  /** What the addresses of an IPv4 subnet look like; and of an IPv6 subnet, whose host has the same 32 behind it. */
  lemma AddressOfFour(a: int, b: int, c: int, d: int, network: seq<int>, i: int)
    requires 0 <= a < 256 && 0 <= b < 256 && 0 <= c < 256 && 0 <= d < 256 && 0 <= i < 256 && IsIp(network + [d])
    ensures IsIp([a, b, c, d])
    ensures AddressText([a, b, c, d], i) == Itoa(a) + "." + Itoa(b) + "." + Itoa(c) + "." + Itoa(i) + "/32"
    ensures IsIp(network + [i]) && AddressText(network + [d], i) == IpText(network + [i]) + "/32"
  {
    hide Itoa, IpText;
    assert WithLast([a, b, c, d], i) == [a, b, c, i] && WithLast(network + [d], i) == network + [i];
    TextOfFour(a, b, c, d);
    TextOfFour(a, b, c, i);
  }

  // ---------------------------------------------------------------- the subnet

  /** The bytes as one number. */
  function Value(ip: seq<int>): nat
    requires forall i :: 0 <= i < |ip| ==> 0 <= ip[i] < 256
  {
    if ip == [] then 0 else Value(ip[..|ip| - 1]) * 256 + ip[|ip| - 1]
  }

  function Bits(subnet: Subnet): nat { 8 * |subnet.base| }

  predicate IsSubnet(subnet: Subnet) { IsIp(subnet.base) && subnet.prefix <= Bits(subnet) }

  /** The address shares the subnet's prefix bits. */
  predicate InSubnet(ip: seq<int>, subnet: Subnet)
    requires IsIp(ip) && IsSubnet(subnet)
  {
    var block := Pow2(Bits(subnet) - subnet.prefix);
    Value(ip) / block == Value(subnet.base) / block
  }

  lemma {:induction false} Pow2Add(a: nat, b: nat)
    ensures Pow2(a + b) == Pow2(a) * Pow2(b)
  {
    if a == 0 {
    } else {
      Pow2Add(a - 1, b);
      assert Pow2(a + b) == 2 * Pow2(a - 1 + b);
      assert 2 * (Pow2(a - 1) * Pow2(b)) == Pow2(a) * Pow2(b);
    }
  }

  /** The last byte does not reach into the bits a multiple of 256 divides off. */
  lemma LastByteDropped(high: int, last: int, q: int)
    requires 0 <= last < 256 && q >= 1 && high >= 0
    ensures (high * 256 + last) / (256 * q) == high / q
  {
    var d, r := high / q, high % q;
    assert high == d * q + r;
    var m := 256 * q;
    assert high * 256 + last == d * m + (r * 256 + last);
    assert 0 <= r * 256 + last < m;
    QuotientOf(high * 256 + last, d, r * 256 + last, m);
  }

  lemma MulMono(a: int, b: int, m: int)
    requires a <= b && m >= 0
    ensures a * m <= b * m
  {
  }

  lemma QuotientOf(n: int, d: int, r: int, m: int)
    requires n == d * m + r && 0 <= r < m
    ensures n / m == d
  {
    var e := n / m;
    assert e * m <= n < e * m + m;
    assert (d + 1) * m == d * m + m && (e + 1) * m == e * m + m;
    if e > d {
      MulMono(d + 1, e, m);
    } else if e < d {
      MulMono(e + 1, d, m);
    }
  }

  lemma HostValue(subnet: Subnet, last: int)
    requires IsIp(subnet.base) && 0 <= last < 256
    ensures var n := |subnet.base| - 1;
            && Value(WithLast(subnet.base, last)) == Value(subnet.base[..n]) * 256 + last
            && Value(subnet.base) == Value(subnet.base[..n]) * 256 + subnet.base[n]
  {
    var n := |subnet.base| - 1;
    assert WithLast(subnet.base, last)[..n] == subnet.base[..n];
  }

  /** Every address the allocator can hand out lies in the subnet exactly when the prefix leaves the whole
      last byte to hosts. */
  lemma AddressesInSubnet(subnet: Subnet)
    requires IsSubnet(subnet)
    ensures (forall i :: 2 <= i < 254 ==> InSubnet(WithLast(subnet.base, i), subnet))
       <==> subnet.prefix <= Bits(subnet) - 8
  {
    hide Value, Pow2, WithLast;
    var n, k := |subnet.base| - 1, Bits(subnet) - subnet.prefix;
    var high := Value(subnet.base[..n]);
    if k >= 8 {
      PowerOfByte(k);
      forall i | 2 <= i < 254 ensures InSubnet(WithLast(subnet.base, i), subnet) {
        HostValue(subnet, i);
        LastByteDropped(high, i, Pow2(k - 8));
        LastByteDropped(high, subnet.base[n], Pow2(k - 8));
      }
    } else {
      SmallBlocks(k);
      HostValue(subnet, 2);
      HostValue(subnet, 253);
      FarApart(high * 256 + 2, high * 256 + 253, Pow2(k));
      assert !(InSubnet(WithLast(subnet.base, 2), subnet) && InSubnet(WithLast(subnet.base, 253), subnet));
    }
  }

  lemma PowerOfByte(k: nat)
    requires k >= 8
    ensures Pow2(k) == 256 * Pow2(k - 8)
  {
    Pow2Add(8, k - 8);
    assert Pow2(8) == 256 by {
      assert Pow2(3) == 8;
      Pow2Add(3, 3);
      Pow2Add(6, 2);
    }
  }

  lemma SmallBlocks(k: nat)
    requires k < 8
    ensures Pow2(k) <= 128
  {
    assert Pow2(0) == 1 && Pow2(1) == 2 && Pow2(2) == 4 && Pow2(3) == 8;
    assert Pow2(4) == 16 && Pow2(5) == 32 && Pow2(6) == 64 && Pow2(7) == 128;
  }

  lemma FarApart(a: int, b: int, m: int)
    requires m >= 1 && b - a >= m
    ensures a / m != b / m
  {
  }

  // ---------------------------------------------------------------- the registry

  function KeyOf(p: PeerConfig): string { p.publicKey }

  function Keys(list: seq<PeerConfig>): seq<string> { Map(KeyOf, list) }

  /** Users and peers point at each other. */
  ghost predicate Bijection(r: Registry)
  {
    && (forall u :: u in r.userPeers ==> r.userPeers[u] in r.peers && r.peers[r.userPeers[u]].userId == u)
    && (forall k :: k in r.peers ==>
          r.peers[k].publicKey == k && r.peers[k].userId in r.userPeers && r.userPeers[r.peers[k].userId] == k)
  }

  ghost function Addresses(peers: map<string, Peer>): set<string>
  {
    set k | k in peers :: peers[k].ip
  }

  ghost predicate Distinct(peers: map<string, Peer>)
  {
    forall k, l :: k in peers && l in peers && peers[k].ip == peers[l].ip ==> k == l
  }

  /** The pool is the set of the peers' addresses, no two peers share one, and each is one the allocator
      hands out. */
  ghost predicate PoolMatches(r: Registry, base: seq<int>)
    requires IsIp(base)
  {
    && r.ipPool.Keys == Addresses(r.peers) && (forall ip :: ip in r.ipPool ==> r.ipPool[ip])
    && Addresses(r.peers) <= Pool(base, 254)
    && Distinct(r.peers)
    && |r.ipPool| == |r.peers|
  }

  /** After the peers configured beforehand, the interface lists every live key exactly once and no other. */
  ghost predicate ListMatches(r: Registry, fixed: seq<PeerConfig>)
  {
    r.wg.Some? ==>
      && |fixed| <= |r.wg.value| && r.wg.value[..|fixed|] == fixed
      && (forall p :: p in fixed ==> p.publicKey !in r.peers)
      && multiset(Keys(r.wg.value[|fixed|..])) == multiset(r.peers.Keys)
  }

  lemma ProvisionKeepsBijection(r: Registry, subnet: Option<Subnet>, userId: string, device: string,
                                keys: Option<KeyPair>, now: int)
    requires subnet.Some? ==> IsIp(subnet.value.base)
    requires Bijection(r) && (keys.Some? ==> keys.value.publicKey !in r.peers)
    ensures Bijection(Provisioned(r, subnet, userId, device, keys, now).0)
  {
    hide FirstFree;
  }

  lemma RevokeKeepsBijection(r: Registry, key: string)
    requires Bijection(r)
    ensures Bijection(Revoked(r, key).0)
  {
  }

  lemma AddressesAfterAdd(peers: map<string, Peer>, key: string, peer: Peer)
    requires key !in peers && peer.ip !in Addresses(peers)
    ensures Addresses(peers[key := peer]) == Addresses(peers) + {peer.ip}
    ensures Distinct(peers) ==> Distinct(peers[key := peer])
    ensures |peers[key := peer]| == |peers| + 1
  {
    var n := peers[key := peer];
    assert n.Keys == peers.Keys + {key};
    forall k | k in peers ensures n[k] == peers[k] && peers[k].ip != peer.ip {
      assert peers[k].ip in Addresses(peers);
    }
    forall a ensures a in Addresses(n) <==> a in Addresses(peers) + {peer.ip} {
      if a in Addresses(peers) {
        var k :| k in peers && peers[k].ip == a;
        assert n[k].ip == a;
      }
      assert n[key].ip == peer.ip;
    }
  }

  lemma AddressesAfterTouch(peers: map<string, Peer>, key: string, peer: Peer)
    requires key in peers && peer.ip == peers[key].ip
    ensures Addresses(peers[key := peer]) == Addresses(peers)
    ensures Distinct(peers) ==> Distinct(peers[key := peer])
    ensures |peers[key := peer]| == |peers|
  {
    var n := peers[key := peer];
    assert n.Keys == peers.Keys;
    assert forall k :: k in peers ==> n[k].ip == peers[k].ip;
  }

  lemma AddressesAfterRemove(peers: map<string, Peer>, key: string)
    requires key in peers && Distinct(peers)
    ensures Addresses(peers - {key}) == Addresses(peers) - {peers[key].ip}
    ensures Distinct(peers - {key}) && |peers - {key}| == |peers| - 1
  {
    var n := peers - {key};
    assert n.Keys == peers.Keys - {key};
    forall a | a in Addresses(peers) && a != peers[key].ip ensures a in Addresses(n) {
      var k :| k in peers && peers[k].ip == a;
      assert n[k].ip == a;
    }
  }

  lemma ProvisionKeepsPool(r: Registry, subnet: Subnet, userId: string, device: string, keys: Option<KeyPair>, now: int)
    requires IsIp(subnet.base) && Bijection(r) && PoolMatches(r, subnet.base)
    requires keys.Some? ==> keys.value.publicKey !in r.peers
    ensures PoolMatches(Provisioned(r, Some(subnet), userId, device, keys, now).0, subnet.base)
  {
    hide FirstFree, Pool, Addresses, Distinct;
    if userId in r.userPeers {
      var k := r.userPeers[userId];
      AddressesAfterTouch(r.peers, k, r.peers[k].(updatedAt := now));
    } else if keys.Some? {
      FirstFreeFinds(subnet.base, r.ipPool, 2);
      var ip := FirstFree(subnet.base, r.ipPool, 2);
      if ip.Some? {
        assert ip.value !in r.ipPool.Keys;
        var k, peer := keys.value.publicKey, NewPeer(keys.value, ip.value, userId, device, now);
        AddressesAfterAdd(r.peers, k, peer);
        assert r.ipPool[ip.value := true].Keys == r.ipPool.Keys + {ip.value};
      }
    }
  }

  lemma RevokeKeepsPool(r: Registry, base: seq<int>, key: string)
    requires IsIp(base) && PoolMatches(r, base)
    ensures PoolMatches(Revoked(r, key).0, base)
  {
    hide Filter, Pool, Distinct;
    if key in r.peers {
      var ip := r.peers[key].ip;
      assert ip in Addresses(r.peers);
      AddressesAfterRemove(r.peers, key);
      assert (r.ipPool - {ip}).Keys == r.ipPool.Keys - {ip};
    }
  }

  lemma KeysSnoc(list: seq<PeerConfig>, p: PeerConfig)
    ensures multiset(Keys(list + [p])) == multiset(Keys(list)) + multiset{p.publicKey}
  {
    MapConcat(KeyOf, list, [p]);
    assert Keys([p]) == [p.publicKey];
  }

  lemma {:induction false} FilterKeys(list: seq<PeerConfig>, key: string)
    ensures multiset(Keys(Filter(OtherThan(key), list))) == multiset(Keys(list))[key := 0]
    decreases |list|
  {
    hide Keys;
    if list != [] {
      var init, last := list[..|list| - 1], list[|list| - 1];
      FilterKeys(init, key);
      assert list == init + [last];
      KeysSnoc(init, last);
      if last.publicKey != key {
        KeysSnoc(Filter(OtherThan(key), init), last);
      } else {
        assert Filter(OtherThan(key), list) == Filter(OtherThan(key), init);
      }
    } else {
      NoKeysListed();
    }
  }

  lemma NoKeysListed()
    ensures Keys([]) == []
  {
  }

  lemma ListAfterAdd(list: seq<PeerConfig>, fixed: seq<PeerConfig>, live: set<string>, p: PeerConfig)
    requires |fixed| <= |list| && list[..|fixed|] == fixed
    requires multiset(Keys(list[|fixed|..])) == multiset(live) && p.publicKey !in live
    ensures var n := list + [p];
            n[..|fixed|] == fixed && multiset(Keys(n[|fixed|..])) == multiset(live + {p.publicKey})
  {
    hide Keys;
    var n := list + [p];
    assert n[|fixed|..] == list[|fixed|..] + [p];
    KeysSnoc(list[|fixed|..], p);
    assert multiset(live + {p.publicKey}) == multiset(live) + multiset{p.publicKey};
  }

  lemma ProvisionKeepsList(r: Registry, subnet: Option<Subnet>, userId: string, device: string, keys: Option<KeyPair>,
                           now: int, fixed: seq<PeerConfig>)
    requires subnet.Some? ==> IsIp(subnet.value.base)
    requires ListMatches(r, fixed)
    requires keys.Some? ==> keys.value.publicKey !in r.peers
    requires keys.Some? ==> forall p :: p in fixed ==> p.publicKey != keys.value.publicKey
    ensures ListMatches(Provisioned(r, subnet, userId, device, keys, now).0, fixed)
  {
    hide FirstFree, Keys;
    if r.wg.Some? {
      if userId in r.userPeers && r.userPeers[userId] in r.peers {
        var k := r.userPeers[userId];
        assert r.peers[k := r.peers[k].(updatedAt := now)].Keys == r.peers.Keys;
      } else if keys.Some? && subnet.Some? && FirstFree(subnet.value.base, r.ipPool, 2).Some? {
        var ip, k := FirstFree(subnet.value.base, r.ipPool, 2).value, keys.value.publicKey;
        ListAfterAdd(r.wg.value, fixed, r.peers.Keys, PeerConfig(k, [ip], 25));
        assert r.peers[k := NewPeer(keys.value, ip, userId, device, now)].Keys == r.peers.Keys + {k};
      }
    }
  }

  lemma RevokeKeepsList(r: Registry, key: string, fixed: seq<PeerConfig>)
    requires ListMatches(r, fixed)
    ensures ListMatches(Revoked(r, key).0, fixed)
  {
    if r.wg.Some? && key in r.peers {
      var n := Revoked(r, key).0;
      var dyn := r.wg.value[|fixed|..];
      assert r.wg.value == fixed + dyn;
      FilterConcat(OtherThan(key), fixed, dyn);
      FilterKeepsAll(OtherThan(key), fixed);
      FilterKeys(dyn, key);
      assert n.wg.value[..|fixed|] == fixed && n.wg.value[|fixed|..] == Filter(OtherThan(key), dyn);
      assert n.peers.Keys == r.peers.Keys - {key};
      assert multiset(r.peers.Keys)[key := 0] == multiset(n.peers.Keys);
    }
  }

  // ---------------------------------------------------------------- every run

  datatype Op = Provision(userId: string, deviceInfo: string, keys: Option<KeyPair>, now: int)
      | Revoke(publicKey: string)

  function Next(r: Registry, op: Op, subnet: Subnet): Registry
    requires IsIp(subnet.base)
  {
    match op
    case Provision(u, d, k, now) => Provisioned(r, Some(subnet), u, d, k, now).0
    case Revoke(k) => Revoked(r, k).0
  }

  /** A run of a new manager on an interface configured beforehand with the peers `fixed`. */
  function Run(ops: seq<Op>, subnet: Subnet, fixed: seq<PeerConfig>): Registry
    requires IsIp(subnet.base)
  {
    if ops == [] then Registry(map[], map[], map[], Some(fixed))
    else Next(Run(ops[..|ops| - 1], subnet, fixed), ops[|ops| - 1], subnet)
  }

  /** No generated public key is that of a live peer or of a peer configured beforehand. */
  predicate FreshKeys(ops: seq<Op>, subnet: Subnet, fixed: seq<PeerConfig>)
    requires IsIp(subnet.base)
  {
    ops != [] ==>
      var init, last := ops[..|ops| - 1], ops[|ops| - 1];
      && FreshKeys(init, subnet, fixed)
      && (last.Provision? && last.keys.Some? ==>
            && last.keys.value.publicKey !in Run(init, subnet, fixed).peers
            && forall p :: p in fixed ==> p.publicKey != last.keys.value.publicKey)
  }

  /** After any run users and peers are in bijection, the pool is exactly the live peers' addresses, no two of
      which are equal, and the interface lists each live key exactly once. */
  lemma {:induction false} RegistryStaysInStep(ops: seq<Op>, subnet: Subnet, fixed: seq<PeerConfig>)
    requires IsIp(subnet.base) && FreshKeys(ops, subnet, fixed)
    ensures var r := Run(ops, subnet, fixed);
            Bijection(r) && PoolMatches(r, subnet.base) && ListMatches(r, fixed) && r.wg.Some?
    decreases |ops|
  {
    hide Bijection, PoolMatches, ListMatches;
    if ops == [] {
      EmptyInStep(subnet, fixed);
    } else {
      var r, last := Run(ops[..|ops| - 1], subnet, fixed), ops[|ops| - 1];
      RegistryStaysInStep(ops[..|ops| - 1], subnet, fixed);
      match last
      case Provision(u, d, k, now) =>
        ProvisionKeepsBijection(r, Some(subnet), u, d, k, now);
        ProvisionKeepsPool(r, subnet, u, d, k, now);
        ProvisionKeepsList(r, Some(subnet), u, d, k, now, fixed);
      case Revoke(k) =>
        RevokeKeepsBijection(r, k);
        RevokeKeepsPool(r, subnet.base, k);
        RevokeKeepsList(r, k, fixed);
    }
  }

  lemma EmptyInStep(subnet: Subnet, fixed: seq<PeerConfig>)
    requires IsIp(subnet.base)
    ensures var r := Registry(map[], map[], map[], Some(fixed));
            Bijection(r) && PoolMatches(r, subnet.base) && ListMatches(r, fixed)
  {
  }

  /** A user without a peer is refused for want of an address exactly when all 252 are taken. */
  lemma RefusedOnlyWhenFull(ops: seq<Op>, subnet: Subnet, fixed: seq<PeerConfig>, userId: string, device: string,
                            keys: KeyPair, now: int)
    requires IsIp(subnet.base) && FreshKeys(ops, subnet, fixed) && userId !in Run(ops, subnet, fixed).userPeers
    ensures var r := Run(ops, subnet, fixed);
            Provisioned(r, Some(subnet), userId, device, Some(keys), now).1 == Err(NoAddress(NoAvailableIp))
            <==> |r.peers| == 252
  {
    hide Run, FirstFree, AddressText, Bijection, ListMatches, Addresses;
    var r := Run(ops, subnet, fixed);
    var pool := Pool(subnet.base, 254);
    RegistryStaysInStep(ops, subnet, fixed);
    PoolSize(subnet.base, 254);
    FirstFreeFinds(subnet.base, r.ipPool, 2);
    assert r.ipPool.Keys <= pool && |r.ipPool.Keys| == |r.peers|;
    if FirstFree(subnet.base, r.ipPool, 2).None? {
      assert r.ipPool.Keys == pool;
    } else {
      var ip := FirstFree(subnet.base, r.ipPool, 2).value;
      assert ip in pool && ip !in r.ipPool.Keys;
      SmallerSubset(r.ipPool.Keys, pool, ip);
    }
  }

  lemma SmallerSubset(a: set<string>, b: set<string>, x: string)
    requires a <= b && x in b && x !in a
    ensures |a| < |b|
  {
    SubsetSize(a, b - {x});
  }

  lemma {:induction false} SubsetSize(a: set<string>, b: set<string>)
    requires a <= b
    ensures |a| <= |b|
  {
    if a == {} {
    } else {
      var x :| x in a;
      SubsetSize(a - {x}, b - {x});
    }
  }

  // ---------------------------------------------------------------- the subnet over whole runs

  /** Every live peer's address is that of a host in the subnet. */
  ghost predicate LiveInSubnet(r: Registry, subnet: Subnet)
    requires IsSubnet(subnet)
  {
    forall key :: key in r.peers ==>
      exists i :: 2 <= i < 254 && r.peers[key].ip == AddressText(subnet.base, i) &&
                  InSubnet(WithLast(subnet.base, i), subnet)
  }

  lemma ShortPrefixesSuffice(ops: seq<Op>, subnet: Subnet, fixed: seq<PeerConfig>)
    requires IsIp(subnet.base) && subnet.prefix <= Bits(subnet) - 8 && FreshKeys(ops, subnet, fixed)
    ensures LiveInSubnet(Run(ops, subnet, fixed), subnet)
  {
    hide Run, AddressText, Bijection, ListMatches, InSubnet, FreshKeys;
    var r := Run(ops, subnet, fixed);
    RegistryStaysInStep(ops, subnet, fixed);
    AddressesInSubnet(subnet);
    forall key | key in r.peers
      ensures exists i :: 2 <= i < 254 && r.peers[key].ip == AddressText(subnet.base, i) &&
                          InSubnet(WithLast(subnet.base, i), subnet)
    {
      assert r.peers[key].ip in Addresses(r.peers);
      var i :| 2 <= i < 254 && r.peers[key].ip == AddressText(subnet.base, i);
      assert InSubnet(WithLast(subnet.base, i), subnet);
    }
  }

  function Unary(n: nat): string { seq(n, _ => 'x') }

  function LongestKey(fixed: seq<PeerConfig>): (n: nat)
    ensures forall p :: p in fixed ==> |p.publicKey| <= n
  {
    if fixed == [] then 0
    else
      var n := LongestKey(fixed[1..]);
      assert forall p :: p in fixed ==> p == fixed[0] || p in fixed[1..];
      if |fixed[0].publicKey| > n then |fixed[0].publicKey| else n
  }

  /** `n` users are provisioned, each with a key longer than any before. */
  function Fill(n: nat, longest: nat): seq<Op>
  {
    if n == 0 then []
    else Fill(n - 1, longest) + [Provision(Unary(n), "", Some(KeyPair("", Unary(longest + n))), 0)]
  }

  ghost predicate Filled(r: Registry, n: nat, longest: nat)
  {
    && |r.peers| == n
    && (forall k :: k in r.peers ==> |k| <= longest + n)
    && (forall u :: u in r.userPeers ==> |u| <= n)
  }

  lemma {:induction false} FillRun(n: nat, subnet: Subnet, fixed: seq<PeerConfig>)
    requires IsIp(subnet.base) && n <= 252
    ensures var ops := Fill(n, LongestKey(fixed));
            FreshKeys(ops, subnet, fixed) && Filled(Run(ops, subnet, fixed), n, LongestKey(fixed))
  {
    hide Provisioned, Run, FreshKeys, LongestKey, Filled, Unary;
    var longest := LongestKey(fixed);
    if n == 0 {
      NothingFilled(subnet, fixed, longest);
    } else {
      var init := Fill(n - 1, longest);
      FillRun(n - 1, subnet, fixed);
      var r, keys := Run(init, subnet, fixed), KeyPair("", Unary(longest + n));
      Unseen(r, n, fixed);
      RefusedOnlyWhenFull(init, subnet, fixed, Unary(n), "", keys, 0);
      RunNext(init, Provision(Unary(n), "", Some(keys), 0), subnet, fixed);
      OneMore(r, subnet, n, longest);
    }
  }

  lemma NothingFilled(subnet: Subnet, fixed: seq<PeerConfig>, longest: nat)
    requires IsIp(subnet.base)
    ensures FreshKeys([], subnet, fixed) && Filled(Run([], subnet, fixed), 0, longest)
  {
  }

  lemma Unseen(r: Registry, n: nat, fixed: seq<PeerConfig>)
    requires n >= 1 && Filled(r, n - 1, LongestKey(fixed))
    ensures var k := Unary(LongestKey(fixed) + n);
            k !in r.peers && forall p :: p in fixed ==> p.publicKey != k
    ensures Unary(n) !in r.userPeers && |r.peers| == n - 1
  {
    assert |Unary(LongestKey(fixed) + n)| == LongestKey(fixed) + n && |Unary(n)| == n;
  }

  lemma RunNext(ops: seq<Op>, op: Op, subnet: Subnet, fixed: seq<PeerConfig>)
    requires IsIp(subnet.base)
    ensures Run(ops + [op], subnet, fixed) == Next(Run(ops, subnet, fixed), op, subnet)
    ensures FreshKeys(ops + [op], subnet, fixed) <==>
              && FreshKeys(ops, subnet, fixed)
              && (op.Provision? && op.keys.Some? ==>
                    && op.keys.value.publicKey !in Run(ops, subnet, fixed).peers
                    && forall p :: p in fixed ==> p.publicKey != op.keys.value.publicKey)
  {
    hide Next;
    assert (ops + [op])[..|ops|] == ops;
  }

  lemma OneMore(r: Registry, subnet: Subnet, n: nat, longest: nat)
    requires IsIp(subnet.base) && n >= 1 && Filled(r, n - 1, longest)
    requires Provisioned(r, Some(subnet), Unary(n), "", Some(KeyPair("", Unary(longest + n))), 0).1
             != Err(NoAddress(NoAvailableIp))
    ensures Filled(Provisioned(r, Some(subnet), Unary(n), "", Some(KeyPair("", Unary(longest + n))), 0).0, n, longest)
  {
    hide FirstFree, AddressText;
    var k := Unary(longest + n);
    assert |k| == longest + n && k !in r.peers && |Unary(n)| == n && Unary(n) !in r.userPeers;
    var after := Provisioned(r, Some(subnet), Unary(n), "", Some(KeyPair("", k)), 0).0;
    AddedPeer(r.peers, k, after.peers[k]);
  }

  lemma AddedPeer(peers: map<string, Peer>, k: string, p: Peer)
    requires k !in peers
    ensures |peers[k := p]| == |peers| + 1
  {
    assert peers[k := p].Keys == peers.Keys + {k};
    assert |peers[k := p].Keys| == |peers[k := p]| && |peers.Keys| == |peers|;
  }

  /** The registry with 252 live peers has handed out every address there is. */
  lemma FullHandsOutAll(r: Registry, base: seq<int>, i: int)
    requires IsIp(base) && PoolMatches(r, base) && |r.peers| == 252 && 2 <= i < 254
    ensures exists key :: key in r.peers && r.peers[key].ip == AddressText(base, i)
  {
    hide AddressText;
    var pool := Pool(base, 254);
    PoolSize(base, 254);
    assert r.ipPool.Keys <= pool && |r.ipPool.Keys| == |r.ipPool| == 252;
    assert AddressText(base, i) in pool;
    if AddressText(base, i) !in r.ipPool.Keys {
      SmallerSubset(r.ipPool.Keys, pool, AddressText(base, i));
    }
    assert AddressText(base, i) in Addresses(r.peers);
  }

  /** In every run all live addresses lie in the subnet, exactly when its prefix leaves the whole last byte to hosts. */
  lemma LiveAddressesInSubnet(subnet: Subnet, fixed: seq<PeerConfig>)
    requires IsSubnet(subnet)
    ensures (forall ops :: FreshKeys(ops, subnet, fixed) ==> LiveInSubnet(Run(ops, subnet, fixed), subnet))
       <==> subnet.prefix <= Bits(subnet) - 8
  {
    hide Run, AddressText, InSubnet, FreshKeys, LiveInSubnet, PoolMatches, Bijection, ListMatches;
    if subnet.prefix <= Bits(subnet) - 8 {
      forall ops | FreshKeys(ops, subnet, fixed) ensures LiveInSubnet(Run(ops, subnet, fixed), subnet) {
        ShortPrefixesSuffice(ops, subnet, fixed);
      }
    } else {
      var ops := Fill(252, LongestKey(fixed));
      FillRun(252, subnet, fixed);
      RegistryStaysInStep(ops, subnet, fixed);
      AddressesInSubnet(subnet);
      var i :| 2 <= i < 254 && !InSubnet(WithLast(subnet.base, i), subnet);
      OutsideIsLive(Run(ops, subnet, fixed), subnet, i);
      assert !LiveInSubnet(Run(ops, subnet, fixed), subnet);
    }
  }

  lemma OutsideIsLive(r: Registry, subnet: Subnet, i: int)
    requires IsSubnet(subnet) && PoolMatches(r, subnet.base) && |r.peers| == 252
    requires 2 <= i < 254 && !InSubnet(WithLast(subnet.base, i), subnet)
    ensures !LiveInSubnet(r, subnet)
  {
    hide AddressText, InSubnet, PoolMatches;
    FullHandsOutAll(r, subnet.base, i);
    var key :| key in r.peers && r.peers[key].ip == AddressText(subnet.base, i);
    forall j | 2 <= j < 254
      ensures AddressText(subnet.base, j) == r.peers[key].ip ==> !InSubnet(WithLast(subnet.base, j), subnet)
    {
      if AddressText(subnet.base, j) == AddressText(subnet.base, i) { AddressInjective(subnet.base, i, j); }
    }
  }

  // ---------------------------------------------------------------- what one call undoes or repeats

  /** Revoking what was just provisioned gives the registry back as it was: maps, pool and peer list. */
  lemma RevokeUndoesProvision(r: Registry, subnet: Subnet, fixed: seq<PeerConfig>, userId: string, device: string,
                              keys: KeyPair, now: int)
    requires IsIp(subnet.base) && Bijection(r) && PoolMatches(r, subnet.base) && ListMatches(r, fixed)
    requires userId !in r.userPeers && keys.publicKey !in r.peers
    requires forall p :: p in fixed ==> p.publicKey != keys.publicKey
    ensures var (after, result) := Provisioned(r, Some(subnet), userId, device, Some(keys), now);
            result.Ok? ==> result.value.publicKey == keys.publicKey && Revoked(after, keys.publicKey) == (r, true)
  {
    hide Filter, Bijection, ListMatches, FirstFree, PoolMatches;
    var ip := FirstFree(subnet.base, r.ipPool, 2);
    if ip.Some? {
      FreeIsNotPooled(r, subnet.base);
      PutAndRemove(r.peers, keys.publicKey, NewPeer(keys, ip.value, userId, device, now));
      PutAndRemove(r.userPeers, userId, keys.publicKey);
      PutAndRemove(r.ipPool, ip.value, true);
      if r.wg.Some? { UnlistAdded(r, fixed, PeerConfig(keys.publicKey, [ip.value], 25)); }
    }
  }

  lemma PutAndRemove<K, V>(m: map<K, V>, k: K, v: V)
    requires k !in m
    ensures m[k := v] - {k} == m
  {
  }

  lemma FreeIsNotPooled(r: Registry, base: seq<int>)
    requires IsIp(base) && PoolMatches(r, base)
    ensures var ip := FirstFree(base, r.ipPool, 2); ip.Some? ==> ip.value !in r.ipPool
  {
    FirstFreeFinds(base, r.ipPool, 2);
  }

  lemma UnlistAdded(r: Registry, fixed: seq<PeerConfig>, p: PeerConfig)
    requires r.wg.Some? && ListMatches(r, fixed) && p.publicKey !in r.peers
    requires forall q :: q in fixed ==> q.publicKey != p.publicKey
    ensures Filter(OtherThan(p.publicKey), r.wg.value + [p]) == r.wg.value
  {
    hide Filter;
    var list, added := r.wg.value, r.wg.value[|fixed|..];
    forall q | q in list ensures q.publicKey != p.publicKey {
      var i :| 0 <= i < |list| && list[i] == q;
      if i < |fixed| {
        assert q == fixed[i];
      } else {
        assert q == added[i - |fixed|] && Keys(added)[i - |fixed|] == q.publicKey;
        assert q.publicKey in multiset(Keys(added));
      }
    }
    FilterSnoc(OtherThan(p.publicKey), list + [p], |list|);
    assert (list + [p])[..|list| + 1] == list + [p] && (list + [p])[..|list|] == list;
    FilterKeepsAll(OtherThan(p.publicKey), list);
  }

  /** A user who asks again gets the same peer, whatever keys would be generated: only its time of update changes,
      and neither the pool nor the peer list does. */
  lemma ProvisionTwice(r: Registry, subnet: Subnet, userId: string, device: string, keys: Option<KeyPair>, now: int,
                       device': string, keys': Option<KeyPair>, now': int)
    requires IsIp(subnet.base) && Bijection(r) && (keys.Some? ==> keys.value.publicKey !in r.peers)
    ensures var (once, first) := Provisioned(r, Some(subnet), userId, device, keys, now);
            var (twice, second) := Provisioned(once, Some(subnet), userId, device', keys', now');
            first.Ok? ==>
              && second == Ok(first.value.(updatedAt := now'))
              && twice == once.(peers := once.peers[first.value.publicKey := second.value])
              && userId in once.userPeers && once.userPeers[userId] in once.peers
              && once.peers[once.userPeers[userId]] == first.value
  {
    hide FirstFree;
  }

  // ---------------------------------------------------------------- one call, field by field

  /** Whether the address of each host byte is in use. */
  ghost function Taken(base: seq<int>, pool: map<string, bool>): (taken: int -> bool)
    requires IsIp(base)
  {
    i => 0 <= i < 256 && AddressText(base, i) in pool && pool[AddressText(base, i)]
  }

  /** A user without a peer gets the first address not in use, host bytes 2 to 253 in order, and with it a peer made of
      the keys, in its place in each map and at the end of the peer list; with all in use nothing changes. */
  lemma NewUserGetsPeer(r: Registry, subnet: Subnet, userId: string, device: string, keys: KeyPair, now: int)
    requires IsIp(subnet.base) && (userId in r.userPeers ==> r.userPeers[userId] !in r.peers)
    ensures var (n, result) := Provisioned(r, Some(subnet), userId, device, Some(keys), now);
            var taken := Taken(subnet.base, r.ipPool);
            if forall i :: 2 <= i < 254 ==> taken(i)
            then n == r && result == Err(NoAddress(NoAvailableIp))
            else
              && result.Ok?
              && var ip := result.value.ip;
                 && (exists i :: 2 <= i < 254 && ip == AddressText(subnet.base, i) && !taken(i)
                       && forall j :: 2 <= j < i ==> taken(j))
                 && result.value == Peer(keys.publicKey, keys.privateKey, [ip], ip, userId, device, now, now)
                 && n.peers == r.peers[keys.publicKey := result.value]
                 && n.userPeers == r.userPeers[userId := keys.publicKey] && n.ipPool == r.ipPool[ip := true]
                 && n.wg == if r.wg == None then None else Some(r.wg.value + [PeerConfig(keys.publicKey, [ip], 25)])
  {
    hide AddressText;
    var base, taken := subnet.base, Taken(subnet.base, r.ipPool);
    FirstFreeFinds(base, r.ipPool, 2);
    assert forall j :: 2 <= j < 254 ==> (taken(j) <==> Used(r.ipPool, AddressText(base, j)));
    if FirstFree(base, r.ipPool, 2).Some? {
      var i :| 2 <= i < 254 && FirstFree(base, r.ipPool, 2).value == AddressText(base, i)
               && forall j :: 2 <= j < i ==> Used(r.ipPool, AddressText(base, j));
      assert !taken(i) && forall j :: 2 <= j < i ==> taken(j);
    }
  }

  /** What fails before an address is looked for changes nothing. */
  lemma FailureChangesNothing(r: Registry, subnet: Option<Subnet>, userId: string, device: string,
                              keys: Option<KeyPair>, now: int)
    requires (subnet.Some? ==> IsIp(subnet.value.base)) && (keys == None || subnet == None)
    requires userId in r.userPeers ==> r.userPeers[userId] !in r.peers
    ensures Provisioned(r, subnet, userId, device, keys, now) ==
            (r, Err(if keys == None then NoKeys else NoAddress(InvalidSubnet)))
  {
  }

  /** Revoking a known key takes it out of each map and the peer list and changes nothing else. */
  lemma RevokedIsGone(r: Registry, key: string)
    ensures key !in r.peers ==> Revoked(r, key) == (r, false)
    ensures key in r.peers ==>
              var (n, known) := Revoked(r, key);
              && known
              && (forall k :: k in n.peers <==> k in r.peers && k != key)
              && (forall k :: k in n.peers ==> n.peers[k] == r.peers[k])
              && (forall u :: u in n.userPeers <==> u in r.userPeers && u != r.peers[key].userId)
              && (forall u :: u in n.userPeers ==> n.userPeers[u] == r.userPeers[u])
              && (forall ip :: ip in n.ipPool <==> ip in r.ipPool && ip != r.peers[key].ip)
              && (forall ip :: ip in n.ipPool ==> n.ipPool[ip] == r.ipPool[ip])
              && n.wg == if r.wg == None then None
                         else Some(Filter((p: PeerConfig) => p.publicKey != key, r.wg.value))
  {
    if key in r.peers && r.wg.Some? { SameFilter(r.wg.value, key); }
  }

  lemma {:induction false} SameFilter(list: seq<PeerConfig>, key: string)
    ensures Filter(OtherThan(key), list) == Filter((p: PeerConfig) => p.publicKey != key, list)
    decreases |list|
  {
    if list != [] { SameFilter(list[..|list| - 1], key); }
  }
}
