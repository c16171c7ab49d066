/** WireGuard peers: the interface's peer list, the address allocator and the manager that keeps users, keys
    and addresses together. */
module WireGuard {
  import opened Common
  import opened IpAddresses

  // ---------------------------------------------------------------- addresses

  /** What parsing the subnet gives: the masked base address, of four or sixteen bytes, and the prefix length. */
  datatype Subnet = Subnet(base: seq<int>, prefix: nat)

  /** The host address the allocator builds: the base with its last byte replaced, as a prefix of 32 bits. */
  function AddressText(base: seq<int>, last: int): string
    requires IsIp(base) && 0 <= last < 256
  {
    IpText(WithLast(base, last)) + "/32"
  }

  predicate Used(pool: map<string, bool>, ip: string)
  {
    ip in pool && pool[ip]
  }

  /** The first free address from `last` on. */
  function FirstFree(base: seq<int>, pool: map<string, bool>, last: int): (ip: Option<string>)
    requires IsIp(base) && 0 <= last
    decreases 254 - last
  {
    if last >= 254 then None
    else if !Used(pool, AddressText(base, last)) then Some(AddressText(base, last))
    else FirstFree(base, pool, last + 1)
  }

  datatype AllocateError = InvalidSubnet | NoAvailableIp

  /** `subnet` is absent when its text does not parse. */
  method AllocateIP(subnet: Option<Subnet>, usedIPs: map<string, bool>) returns (r: Result<string, AllocateError>)
    requires subnet.Some? ==> IsIp(subnet.value.base)
    ensures subnet.None? ==> r == Err(InvalidSubnet)
    ensures subnet.Some? ==> r == match FirstFree(subnet.value.base, usedIPs, 2)
                                  case None => Err(NoAvailableIp)
                                  case Some(ip) => Ok(ip)
  {
    if subnet.None? {
      return Err(InvalidSubnet);
    }
    var baseIP := subnet.value.base;
    for i := 2 to 254
      invariant FirstFree(baseIP, usedIPs, 2) == FirstFree(baseIP, usedIPs, i)
    {
      var ip := baseIP[|baseIP| - 1 := i];
      var ipStr := IpText(ip) + "/32";
      if !(ipStr in usedIPs && usedIPs[ipStr]) {
        return Ok(ipStr);
      }
    }
    return Err(NoAvailableIp);
  }

  // ---------------------------------------------------------------- the interface

  datatype PeerConfig = PeerConfig(publicKey: string, allowedIPs: seq<string>, persistentKeepalive: int)

  function OtherThan(key: string): PeerConfig -> bool { (p: PeerConfig) => p.publicKey != key }

  class Service {
    /** The configured peers; absent until the interface is configured. */
    var config: Option<seq<PeerConfig>>

    constructor ()
      ensures config == None
    {
      config := None;
    }

    method Configure(peers: seq<PeerConfig>)
      modifies this
      ensures config == Some(peers)
    {
      config := Some(peers);
    }

    predicate IsConfigured()
      reads this
    {
      config.Some?
    }

    method AddPeer(peer: PeerConfig) returns (ok: bool)
      modifies this
      ensures ok == old(config).Some?
      ensures config == if ok then Some(old(config).value + [peer]) else old(config)
    {
      if config.None? {
        return false;
      }
      config := Some(config.value + [peer]);
      return true;
    }

    method RemovePeer(publicKey: string) returns (ok: bool)
      modifies this
      ensures ok == old(config).Some?
      ensures config == if ok then Some(Filter(OtherThan(publicKey), old(config).value)) else old(config)
    {
      if config.None? {
        return false;
      }
      var peers: seq<PeerConfig> := [];
      for i := 0 to |config.value|
        invariant config == old(config) && peers == Filter(OtherThan(publicKey), config.value[..i])
      {
        FilterSnoc(OtherThan(publicKey), config.value, i);
        if config.value[i].publicKey != publicKey {
          peers := peers + [config.value[i]];
        }
      }
      assert config.value[..|config.value|] == config.value;
      config := Some(peers);
      return true;
    }
  }

  // ---------------------------------------------------------------- the manager

  datatype KeyPair = KeyPair(privateKey: string, publicKey: string)

  datatype Peer = Peer(
    publicKey: string, privateKey: string, allowedIPs: seq<string>, ip: string, userId: string,
    deviceInfo: string, createdAt: int, updatedAt: int)

  datatype ProvisionError = NoKeys | NoAddress(reason: AllocateError)

  /** What the manager and the interface know; `wg` is absent without a configured interface. */
  datatype Registry = Registry(
    peers: map<string, Peer>, userPeers: map<string, string>, ipPool: map<string, bool>, wg: Option<seq<PeerConfig>>)

  function NewPeer(keys: KeyPair, ip: string, userId: string, deviceInfo: string, now: int): Peer
  {
    Peer(keys.publicKey, keys.privateKey, [ip], ip, userId, deviceInfo, now, now)
  }

  function Provisioned(r: Registry, subnet: Option<Subnet>, userId: string, deviceInfo: string, keys: Option<KeyPair>,
                       now: int)
    : (Registry, Result<Peer, ProvisionError>)
    requires subnet.Some? ==> IsIp(subnet.value.base)
  {
    if userId in r.userPeers && r.userPeers[userId] in r.peers then
      var k := r.userPeers[userId];
      var peer := r.peers[k].(updatedAt := now);
      (r.(peers := r.peers[k := peer]), Ok(peer))
    else if keys.None? then (r, Err(NoKeys))
    else if subnet.None? then (r, Err(NoAddress(InvalidSubnet)))
    else
      match FirstFree(subnet.value.base, r.ipPool, 2)
      case None => (r, Err(NoAddress(NoAvailableIp)))
      case Some(ip) =>
        var k := keys.value.publicKey;
        var peer := NewPeer(keys.value, ip, userId, deviceInfo, now);
        (Registry(r.peers[k := peer], r.userPeers[userId := k], r.ipPool[ip := true],
                  if r.wg.Some? then Some(r.wg.value + [PeerConfig(k, [ip], 25)]) else None), Ok(peer))
  }

  /** The flag says whether the key was known. */
  function Revoked(r: Registry, publicKey: string): (Registry, bool)
  {
    if publicKey !in r.peers then (r, false)
    else
      var peer := r.peers[publicKey];
      (Registry(r.peers - {publicKey}, r.userPeers - {peer.userId}, r.ipPool - {peer.ip},
                if r.wg.Some? then Some(Filter(OtherThan(publicKey), r.wg.value)) else None), true)
  }

  class Manager {
    var peers: map<string, Peer>
    var userPeers: map<string, string>
    var ipPool: map<string, bool>
    const subnet: Option<Subnet>
    const wgService: Service?

    function View(): Registry
      reads this, wgService
    {
      Registry(peers, userPeers, ipPool, if wgService == null then None else wgService.config)
    }

    constructor (subnet: Option<Subnet>, wgService: Service?)
      ensures this.subnet == subnet && this.wgService == wgService
      ensures View() == Registry(map[], map[], map[], if wgService == null then None else wgService.config)
    {
      this.subnet, this.wgService := subnet, wgService;
      peers, userPeers, ipPool := map[], map[], map[];
    }

    /** `keys` is absent when the key generator fails. */
    method Provision(userId: string, deviceInfo: string, keys: Option<KeyPair>, now: int)
      returns (r: Result<Peer, ProvisionError>)
      requires subnet.Some? ==> IsIp(subnet.value.base)
      modifies this, wgService
      ensures (View(), r) == Provisioned(old(View()), subnet, userId, deviceInfo, keys, now)
    {
      if userId in userPeers {
        var existingKey := userPeers[userId];
        if existingKey in peers {
          var peer := peers[existingKey].(updatedAt := now);
          peers := peers[existingKey := peer];
          return Ok(peer);
        }
      }
      if keys.None? {
        return Err(NoKeys);
      }
      var found := AllocateIP(subnet, ipPool);
      if found.Err? {
        return Err(NoAddress(found.error));
      }
      var ip, pubKey := found.value, keys.value.publicKey;
      ipPool := ipPool[ip := true];
      var peer := NewPeer(keys.value, ip, userId, deviceInfo, now);
      peers := peers[pubKey := peer];
      userPeers := userPeers[userId := pubKey];
      if wgService != null && wgService.IsConfigured() {
        var _ := wgService.AddPeer(PeerConfig(pubKey, [ip], 25));
      }
      return Ok(peer);
    }

    method Revoke(publicKey: string) returns (known: bool)
      modifies this, wgService
      ensures (View(), known) == Revoked(old(View()), publicKey)
    {
      if publicKey !in peers {
        return false;
      }
      var peer := peers[publicKey];
      ipPool := ipPool - {peer.ip};
      userPeers := userPeers - {peer.userId};
      peers := peers - {publicKey};
      if wgService != null {
        var _ := wgService.RemovePeer(publicKey);
      }
      return true;
    }

    method GetByUserID(userId: string) returns (peer: Option<Peer>)
      ensures peer == if userId in userPeers && userPeers[userId] in peers then Some(peers[userPeers[userId]]) else None
    {
      if userId !in userPeers {
        return None;
      }
      var pubKey := userPeers[userId];
      return if pubKey in peers then Some(peers[pubKey]) else None;
    }
  }
}
