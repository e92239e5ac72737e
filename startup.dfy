/**
 * The start-up helpers of main.go: choosing the chain parameters, collecting the
 * host's usable IP addresses (IPv4 first), building the listen multiaddrs and
 * filtering the boot nodes. The net and multiaddr libraries are oracles: an address
 * arrives with the classification the net package gives it.
 */
module Startup {
  import opened Wrappers
  import opened Externals

  // ---------------------------------------------------------------------------
  // The network switch

  datatype Network = MainNet | TestNet

  /** The --network switch: "testnet" selects the test network, anything else the main one. */
  function SelectNetwork(netstring: string): (n: Network)
    ensures n == TestNet <==> netstring == "testnet"
    ensures n == MainNet <==> netstring != "testnet"
  {
    if netstring == "testnet" then TestNet else MainNet
  }

  // ---------------------------------------------------------------------------
  // Addresses as the net package classifies them

  /** A net.IP: its text, whether To4() is non-nil, and its loopback and link-local classes. */
  datatype IP = IP(text: string, isV4: bool, isLoopback: bool, isLinkLocalUnicast: bool)

  /** A net.Addr of an interface: an *IPNet, an *IPAddr (each with a possibly nil IP) or another kind. */
  datatype Addr = IPNet(netIP: Option<IP>) | IPAddr(addrIP: Option<IP>) | OtherAddr

  /** A net.Interface: its up and loopback flags and what Addrs() returns. */
  datatype Interface = Interface(up: bool, loopback: bool, addrs: Result<seq<Addr>>)

  /** The IP the type switch extracts from an address; nil for other kinds. */
  function AddrIP(a: Addr): Option<IP>
  {
    match a
    case IPNet(ip) => ip
    case IPAddr(ip) => ip
    case OtherAddr => None
  }

  /** The address filter: non-nil, not loopback, not link-local unicast. */
  predicate Usable(ip: Option<IP>)
  {
    ip.Some? && !ip.value.isLoopback && !ip.value.isLinkLocalUnicast
  }

  /** Interfaces whose addresses are looked at: up and not loopback. */
  predicate Scanned(iface: Interface)
  {
    iface.up && !iface.loopback
  }

  /** A scanned interface whose address listing failed. */
  predicate ListingFails(iface: Interface)
  {
    Scanned(iface) && iface.addrs.Err?
  }

  /** The usable IPs of an address list, in order. */
  function UsableIPs(addrs: seq<Addr>): seq<IP>
  {
    if addrs == [] then []
    else
      var ip := AddrIP(addrs[|addrs| - 1]);
      UsableIPs(addrs[..|addrs| - 1]) + (if Usable(ip) then [ip.value] else [])
  }

  /** A scanned interface lists ip among its usable addresses. */
  predicate Provides(iface: Interface, ip: IP)
  {
    Scanned(iface) && iface.addrs.Ok? && ip in UsableIPs(iface.addrs.value)
  }

  /**
   * The loop of retrieveIPAddrs over the interfaces, in order: skip interfaces that are
   * down or loopback, fail on the first listing error, keep the usable addresses.
   */
  function CollectIPs(ifaces: seq<Interface>): Result<seq<IP>>
  {
    if ifaces == [] then Ok([])
    else
      var prev := CollectIPs(ifaces[..|ifaces| - 1]);
      var iface := ifaces[|ifaces| - 1];
      if prev.Err? || !Scanned(iface) then prev
      else if iface.addrs.Err? then Err(iface.addrs.error)
      else Ok(prev.value + UsableIPs(iface.addrs.value))
  }

  /** An address is kept exactly when the type switch finds a usable IP in it. */
  lemma {:induction false} UsableIPsExact(addrs: seq<Addr>, ip: IP)
    ensures ip in UsableIPs(addrs) <==> Usable(Some(ip)) && exists j :: 0 <= j < |addrs| && AddrIP(addrs[j]) == Some(ip)
  {
    if addrs != [] {
      var init := addrs[..|addrs| - 1];
      UsableIPsExact(init, ip);
      if exists j :: 0 <= j < |addrs| && AddrIP(addrs[j]) == Some(ip) {
        var j :| 0 <= j < |addrs| && AddrIP(addrs[j]) == Some(ip);
        if j < |init| {
          assert init[j] == addrs[j];
        }
      }
      if exists j :: 0 <= j < |init| && AddrIP(init[j]) == Some(ip) {
        var j :| 0 <= j < |init| && AddrIP(init[j]) == Some(ip);
        assert addrs[j] == init[j];
      }
    }
  }

  /** Once a listing error has been met, the later interfaces change nothing. */
  lemma {:induction false} CollectErrorIsFinal(ifaces: seq<Interface>, n: nat)
    requires n <= |ifaces|
    requires CollectIPs(ifaces[..n]).Err?
    ensures CollectIPs(ifaces) == CollectIPs(ifaces[..n])
    decreases |ifaces| - n
  {
    if n == |ifaces| {
      assert ifaces[..n] == ifaces;
    } else {
      var init := ifaces[..|ifaces| - 1];
      assert init[..n] == ifaces[..n];
      CollectErrorIsFinal(init, n);
    }
  }

  /**
   * retrieveIPAddrs fails exactly when some scanned interface cannot list its addresses,
   * with the error of the first such interface; otherwise it keeps exactly the usable
   * addresses of the scanned interfaces.
   */
  lemma {:induction false} CollectIPsExact(ifaces: seq<Interface>)
    ensures CollectIPs(ifaces).Err? <==> exists k :: 0 <= k < |ifaces| && ListingFails(ifaces[k])
    ensures CollectIPs(ifaces).Err? ==>
      exists k :: (&& 0 <= k < |ifaces| && ListingFails(ifaces[k])
                   && CollectIPs(ifaces).error == ifaces[k].addrs.error
                   && forall j :: 0 <= j < k ==> !ListingFails(ifaces[j]))
    ensures CollectIPs(ifaces).Ok? ==> forall ip ::
      ip in CollectIPs(ifaces).value <==> exists k :: 0 <= k < |ifaces| && Provides(ifaces[k], ip)
  {
    if ifaces != [] {
      var init := ifaces[..|ifaces| - 1];
      var last := ifaces[|ifaces| - 1];
      CollectIPsExact(init);
      forall k | 0 <= k < |init| ensures init[k] == ifaces[k] { }
      if CollectIPs(init).Err? {
        var k :| 0 <= k < |init| && ListingFails(init[k])
          && CollectIPs(init).error == init[k].addrs.error
          && forall j :: 0 <= j < k ==> !ListingFails(init[j]);
        assert ListingFails(ifaces[k]);
      } else if ListingFails(last) {
        assert forall j :: 0 <= j < |init| ==> !ListingFails(ifaces[j]);
        assert ListingFails(ifaces[|ifaces| - 1]);
      } else {
        assert forall j :: 0 <= j < |ifaces| - 1 ==> !ListingFails(ifaces[j]);
        forall ip
          ensures ip in CollectIPs(ifaces).value <==> exists k :: 0 <= k < |ifaces| && Provides(ifaces[k], ip)
        {
          if exists k :: 0 <= k < |ifaces| && Provides(ifaces[k], ip) {
            var k :| 0 <= k < |ifaces| && Provides(ifaces[k], ip);
            if k < |init| {
              assert Provides(init[k], ip);
            }
          }
          if ip in CollectIPs(init).value {
            var k :| 0 <= k < |init| && Provides(init[k], ip);
            assert Provides(ifaces[k], ip);
          }
          if Scanned(last) && ip in UsableIPs(last.addrs.value) {
            assert Provides(ifaces[|ifaces| - 1], ip);
          }
        }
      }
    }
  }

  // ---------------------------------------------------------------------------
  // SortAddresses

  /** Every IPv4 address comes before every address that is not IPv4. */
  predicate V4First(s: seq<IP>)
  {
    forall m, n :: 0 <= m < n < |s| && s[n].isV4 ==> s[m].isV4
  }
  /** The first p entries are IPv4 and those from q on are not. */
  predicate Split(s: seq<IP>, p: nat, q: nat)
  {
    && p <= q <= |s|
    && (forall k :: 0 <= k < p ==> s[k].isV4)
    && (forall k :: q <= k < |s| ==> !s[k].isV4)
  }

  /** Once the unsorted middle is empty, the sequence has its IPv4 addresses first. */
  lemma SplitIsV4First(s: seq<IP>, p: nat)
    requires Split(s, p, p)
    ensures V4First(s)
  {
  }
  /** An IPv4 address at the left edge of the unsorted middle is already in place. */
  lemma GrowLeft(s: seq<IP>, p: nat, q: nat)
    requires Split(s, p, q) && p < q && s[p].isV4
    ensures Split(s, p + 1, q)
  {
  }

  /** A non-IPv4 address at the right edge of the unsorted middle is already in place. */
  lemma GrowRight(s: seq<IP>, p: nat, q: nat)
    requires Split(s, p, q) && p < q && !s[q - 1].isV4
    ensures Split(s, p, q - 1)
  {
  }

  /** Swapping two elements of a sequence keeps its elements. */
  lemma SwapPermutes(s: seq<IP>, p: nat, q: nat)
    requires p < |s| && q < |s|
    ensures multiset(s[p := s[q]][q := s[p]]) == multiset(s)
  {
    var t := s[p := s[q]];
    assert multiset(t) == multiset(s) - multiset{s[p]} + multiset{s[q]};
    assert multiset(t[q := s[p]]) == multiset(t) - multiset{s[q]} + multiset{s[p]};
  }

  /**
   * With a non-IPv4 address at the left edge of the unsorted middle and an IPv4
   * address at its right edge, swapping the two shrinks the middle from both sides.
   */
  lemma SwapKeepsSplit(s: seq<IP>, p: nat, q: nat)
    requires Split(s, p, q) && p < q && !s[p].isV4 && s[q - 1].isV4
    ensures p + 1 <= q - 1
    ensures Split(s[p := s[q - 1]][q - 1 := s[p]], p + 1, q - 1)
  {
  }

  /** Exchange two entries of the slice in place. */
  method Swap(a: array<IP>, i: nat, j: nat)
    requires i < a.Length && j < a.Length
    modifies a
    ensures a[..] == old(a[..])[i := old(a[j])][j := old(a[i])]
  {
    a[i], a[j] := a[j], a[i];
  }

  /**
   * SortAddresses: reorder the slice in place so that IPv4 addresses come first. The
   * order inside each class is left open, as sort.Slice is not stable.
   */
  method SortAddresses(ipAddrs: array<IP>) returns (sorted: array<IP>)
    modifies ipAddrs
    ensures sorted == ipAddrs
    ensures V4First(ipAddrs[..])
    ensures multiset(ipAddrs[..]) == multiset(old(ipAddrs[..]))
  {
    ghost var original := ipAddrs[..];
    ghost var cur := original;
    var lo: nat, hi: nat := 0, ipAddrs.Length;
    while lo < hi
      invariant ipAddrs[..] == cur
      invariant Split(cur, lo, hi)
      invariant multiset(cur) == multiset(original)
    {
      if ipAddrs[lo].isV4 {
        GrowLeft(cur, lo, hi);
        lo := lo + 1;
      } else if !ipAddrs[hi - 1].isV4 {
        GrowRight(cur, lo, hi);
        hi := hi - 1;
      } else {
        SwapKeepsSplit(cur, lo, hi);
        SwapPermutes(cur, lo, hi - 1);
        Swap(ipAddrs, lo, hi - 1);
        cur := cur[lo := cur[hi - 1]][hi - 1 := cur[lo]];
        lo, hi := lo + 1, hi - 1;
      }
    }
    SplitIsV4First(cur, lo);
    sorted := ipAddrs;
  }

  /**
   * retrieveIPAddrs: the usable addresses of the up, non-loopback interfaces, IPv4
   * first; an error from the interface list or from any scanned interface's listing
   * is returned instead, with no partial list.
   */
  method RetrieveIPAddrs(interfaces: Result<seq<Interface>>) returns (r: Result<seq<IP>>)
    ensures interfaces.Err? ==> r == Err(interfaces.error)
    ensures interfaces.Ok? && CollectIPs(interfaces.value).Err? ==> r == CollectIPs(interfaces.value)
    ensures interfaces.Ok? && CollectIPs(interfaces.value).Ok? ==>
      && r.Ok?
      && multiset(r.value) == multiset(CollectIPs(interfaces.value).value)
      && V4First(r.value)
  {
    if interfaces.Err? {
      return Err(interfaces.error);
    }
    var ifaces := interfaces.value;
    var ipAddrs: seq<IP> := [];
    var i := 0;
    while i < |ifaces|
      invariant 0 <= i <= |ifaces|
      invariant CollectIPs(ifaces[..i]) == Ok(ipAddrs)
    {
      var iface := ifaces[i];
      assert ifaces[..i + 1][..i] == ifaces[..i];
      if !iface.up {
        // interface down
      } else if iface.loopback {
        // loopback interface
      } else {
        match iface.addrs
        case Err(e) =>
          CollectErrorIsFinal(ifaces, i + 1);
          return Err(e);
        case Ok(addrs) =>
          ghost var before := ipAddrs;
          for j := 0 to |addrs|
            invariant ipAddrs == before + UsableIPs(addrs[..j])
          {
            assert addrs[..j + 1][..j] == addrs[..j];
            var ip := AddrIP(addrs[j]);
            if Usable(ip) {
              ipAddrs := ipAddrs + [ip.value];
            }
          }
          assert addrs[..|addrs|] == addrs;
      }
      i := i + 1;
    }
    assert ifaces[..|ifaces|] == ifaces;
    var slice := new IP[|ipAddrs|](k requires 0 <= k < |ipAddrs| => ipAddrs[k]);
    assert slice[..] == ipAddrs;
    var sorted := SortAddresses(slice);
    r := Ok(sorted[..]);
  }

  // ---------------------------------------------------------------------------
  // multiAddressBuilder

  /** What net.ParseIP makes of a string: nothing, an address with To4() non-nil, or another address. */
  datatype IPClass = NotAnIP | V4 | V6

  function ProtocolName(family: IPClass): string
    requires family != NotAnIP
  {
    if family == V4 then "ip4" else "ip6"
  }

  /** The text "/ip4/<ip>/tcp/<port>" or "/ip6/<ip>/tcp/<port>". */
  function TcpMultiaddrText(family: IPClass, ipAddr: string, port: string): string
    requires family != NotAnIP
  {
    (if family == V4 then "/ip4/" else "/ip6/") + ipAddr + "/tcp/" + port
  }

  /**
   * multiAddressBuilder: reject a string net.ParseIP does not accept; otherwise build
   * the ip4 multiaddr for an IPv4 address and the ip6 one for any other.
   */
  function MultiAddressBuilder(ipAddr: string, port: string, parseIP: string -> IPClass,
                               newMultiaddr: string -> Result<Multiaddr>): (r: Result<Multiaddr>)
    ensures parseIP(ipAddr) == NotAnIP ==> r == Err(Error("invalid ip address provided: " + ipAddr))
    ensures parseIP(ipAddr) == V4 ==> r == newMultiaddr("/ip4/" + ipAddr + "/tcp/" + port)
    ensures parseIP(ipAddr) == V6 ==> r == newMultiaddr("/ip6/" + ipAddr + "/tcp/" + port)
  {
    var parsed := parseIP(ipAddr);
    if parsed == NotAnIP then Err(Error("invalid ip address provided: " + ipAddr))
    else newMultiaddr(TcpMultiaddrText(parsed, ipAddr, port))
  }

  /** The first '/' of a string. */
  function IndexOfSlash(s: string): (k: nat)
    requires '/' in s
    ensures k < |s| && s[k] == '/' && '/' !in s[..k]
  {
    if s[0] == '/' then 0
    else
      var k := 1 + IndexOfSlash(s[1..]);
      assert s[..k] == [s[0]] + s[1..][..k - 1];
      k
  }

  /** The '/'-separated components of a multiaddr text, as strings.Split gives them. */
  function Components(s: string): seq<string>
    decreases |s|
  {
    if '/' in s then
      var k := IndexOfSlash(s);
      [s[..k]] + Components(s[k + 1..])
    else [s]
  }

  /** A component followed by '/' splits off first. */
  lemma ComponentsCons(a: string, b: string)
    requires '/' !in a
    ensures Components(a + "/" + b) == [a] + Components(b)
  {
    var s := a + "/" + b;
    assert s[|a|] == '/';
    var k := IndexOfSlash(s);
    assert s[..|a|] == a;
    assert k == |a|;
    assert s[k + 1..] == b;
  }

  /** A TCP multiaddr taken apart into its address family, IP and port. */
  datatype TcpAddress = TcpAddress(family: IPClass, ipAddr: string, port: string)

  /** The reverse of TcpMultiaddrText. */
  function ParseTcpMultiaddr(text: string): Option<TcpAddress>
  {
    var parts := Components(text);
    if |parts| == 5 && parts[0] == "" && parts[3] == "tcp" && (parts[1] == "ip4" || parts[1] == "ip6") then
      Some(TcpAddress(if parts[1] == "ip4" then V4 else V6, parts[2], parts[4]))
    else None
  }

  /** A text without '/' is one component. */
  lemma ComponentsSingle(s: string)
    requires '/' !in s
    ensures Components(s) == [s]
  {
  }

  /** Components joined with '/'. */
  function Join(parts: seq<string>): string
    requires parts != []
  {
    if |parts| == 1 then parts[0] else parts[0] + "/" + Join(parts[1..])
  }

  /** Splitting undoes joining when no component holds a '/'. */
  lemma {:induction false} ComponentsJoin(parts: seq<string>)
    requires parts != []
    requires forall k :: 0 <= k < |parts| ==> '/' !in parts[k]
    ensures Components(Join(parts)) == parts
  {
    if |parts| == 1 {
      ComponentsSingle(parts[0]);
    } else {
      ComponentsJoin(parts[1..]);
      ComponentsCons(parts[0], Join(parts[1..]));
    }
  }

  /** The multiaddr text splits into the empty root, the family, the IP, "tcp" and the port. */
  lemma MultiaddrComponents(family: IPClass, ipAddr: string, port: string)
    requires family != NotAnIP
    requires '/' !in ipAddr && '/' !in port
    ensures Components(TcpMultiaddrText(family, ipAddr, port)) == ["", ProtocolName(family), ipAddr, "tcp", port]
  {
    var parts := ["", ProtocolName(family), ipAddr, "tcp", port];
    assert Join(parts[4..]) == port;
    assert Join(parts[3..]) == "tcp/" + port;
    assert Join(parts[2..]) == ipAddr + "/tcp/" + port;
    assert Join(parts) == TcpMultiaddrText(family, ipAddr, port);
    ComponentsJoin(parts);
  }

  /** The address family, the IP and the port read back unchanged from the multiaddr text. */
  lemma MultiaddrRoundTrip(family: IPClass, ipAddr: string, port: string)
    requires family != NotAnIP
    requires '/' !in ipAddr && '/' !in port
    ensures ParseTcpMultiaddr(TcpMultiaddrText(family, ipAddr, port)) == Some(TcpAddress(family, ipAddr, port))
  {
    MultiaddrComponents(family, ipAddr, port);
  }

  // ---------------------------------------------------------------------------
  // The boot-node filter

  /** ma.NewMultiaddr then peer.AddrInfoFromP2pAddr on one configured relayer; None if either fails. */
  function ParseRelayer(relayer: string, newMultiaddr: string -> Result<Multiaddr>,
                        addrInfoFromP2pAddr: Multiaddr -> Result<AddrInfo>): Option<AddrInfo>
  {
    match newMultiaddr(relayer)
    case Err(_) => None
    case Ok(addr) =>
      match addrInfoFromP2pAddr(addr)
      case Err(_) => None
      case Ok(info) => Some(info)
  }

  /** The configured relayers in order, without those that fail to parse and without the host itself. */
  function BootNodeList(relayers: seq<string>, self: PeerId, newMultiaddr: string -> Result<Multiaddr>,
                        addrInfoFromP2pAddr: Multiaddr -> Result<AddrInfo>): seq<AddrInfo>
  {
    if relayers == [] then []
    else
      var init := BootNodeList(relayers[..|relayers| - 1], self, newMultiaddr, addrInfoFromP2pAddr);
      var parsed := ParseRelayer(relayers[|relayers| - 1], newMultiaddr, addrInfoFromP2pAddr);
      if parsed.Some? && parsed.value.id != self then init + [parsed.value] else init
  }

  /**
   * A peer is a boot node exactly when some configured relayer parses to it and it is
   * not the host; there are never more boot nodes than relayers.
   */
  lemma {:induction false} BootNodeListExact(relayers: seq<string>, self: PeerId, newMultiaddr: string -> Result<Multiaddr>,
                                             addrInfoFromP2pAddr: Multiaddr -> Result<AddrInfo>, node: AddrInfo)
    ensures |BootNodeList(relayers, self, newMultiaddr, addrInfoFromP2pAddr)| <= |relayers|
    ensures node in BootNodeList(relayers, self, newMultiaddr, addrInfoFromP2pAddr) <==>
      node.id != self && exists k :: 0 <= k < |relayers| && ParseRelayer(relayers[k], newMultiaddr, addrInfoFromP2pAddr) == Some(node)
  {
    if relayers != [] {
      var init := relayers[..|relayers| - 1];
      BootNodeListExact(init, self, newMultiaddr, addrInfoFromP2pAddr, node);
      if exists k :: 0 <= k < |relayers| && ParseRelayer(relayers[k], newMultiaddr, addrInfoFromP2pAddr) == Some(node) {
        var k :| 0 <= k < |relayers| && ParseRelayer(relayers[k], newMultiaddr, addrInfoFromP2pAddr) == Some(node);
        if k < |init| {
          assert init[k] == relayers[k];
        }
      }
      if exists k :: 0 <= k < |init| && ParseRelayer(init[k], newMultiaddr, addrInfoFromP2pAddr) == Some(node) {
        var k :| 0 <= k < |init| && ParseRelayer(init[k], newMultiaddr, addrInfoFromP2pAddr) == Some(node);
        assert relayers[k] == init[k];
      }
    }
  }

  /** The boot-node loop of the start-up command. */
  method BootNodes(relayers: seq<string>, self: PeerId, newMultiaddr: string -> Result<Multiaddr>,
                   addrInfoFromP2pAddr: Multiaddr -> Result<AddrInfo>) returns (bootNodes: seq<AddrInfo>)
    ensures bootNodes == BootNodeList(relayers, self, newMultiaddr, addrInfoFromP2pAddr)
  {
    bootNodes := [];
    for i := 0 to |relayers|
      invariant bootNodes == BootNodeList(relayers[..i], self, newMultiaddr, addrInfoFromP2pAddr)
    {
      assert relayers[..i + 1][..i] == relayers[..i];
      var r := relayers[i];
      var addr := newMultiaddr(r);
      if addr.Err? {
        continue;
      }
      var peerAddr := addrInfoFromP2pAddr(addr.value);
      if peerAddr.Err? {
        continue;
      }
      if peerAddr.value.id == self {
        continue;
      }
      bootNodes := bootNodes + [peerAddr.value];
    }
    assert relayers[..|relayers|] == relayers;
  }
}
