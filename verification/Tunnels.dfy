/** The tunnels that the WireGuard manager brings up, as the interfaces the proxy's
    listeners run on (pkg/providers/wireguard/manager.go, pkg/providers/proxy/proxy.go). */
module Tunnels {
  import opened Strings
  import opened Numerals
  import opened Addresses
  import opened Listeners
  import opened PeerTable

  /** A tunnel address is dotted, as the listeners' keys and addresses need it. */
  lemma EdgeIPIsPlain(index: nat)
    ensures PlainIP(EdgeIP(index))
  {
    hide Print;
    PrintsDigits(index);
  }

  /** The two ends of a tunnel, read as addresses: the edge is the first host of 10.0.n.0
      and the client the second. */
  lemma EndsOfTunnel(index: nat)
    requires index <= 255
    ensures ParseV4(EdgeIP(index)) == Some(0x0a00_0001 + 0x100 * index)
    ensures ParseV4(ClientIP(index)) == Some(0x0a00_0002 + 0x100 * index)
  {
    EndOfTunnel(index, 1);
    EndOfTunnel(index, 2);
    OneDigitMore(0, 1);
    OneDigitMore(0, 2);
    hide Print;
    hide ParseV4;
    assert "10.0." + Print(index, 10) + "." + "1" == EdgeIP(index);
    assert "10.0." + Print(index, 10) + "." + "2" == ClientIP(index);
  }

  lemma EndOfTunnel(index: nat, last: nat)
    requires index <= 255 && last <= 2
    ensures ParseV4("10.0." + Print(index, 10) + "." + Print(last, 10)) == Some(0x0a00_0000 + 0x100 * index + last)
  {
    TenAndZero();
    hide *;
    var a := 0x0a00_0000 + 0x100 * index + last;
    FourOctets(10, 0, index, last);
    assert ((10 * 256 + 0) * 256 + index) * 256 + last == a;
    DottedText(a, 10, 0, index, last);
    ParseOfPrintV4(a);
  }

  lemma TenAndZero()
    ensures Print(10, 10) + "." + Print(0, 10) + "." == "10.0."
    ensures V4_ADDRESSES == 0x1_0000_0000
  {
    OneDigitMore(0, 1);
    OneDigitMore(1, 0);
    OneDigitMore(0, 0);
  }

  /** What the manager reports are interfaces as the listeners assume them: plain
      addresses, and no two alike. */
  method ReportedInterfaces(m: Manager) returns (ips: map<string, string>)
    ensures AreInterfaces(m.clientPeers, m.wgConns, m.wgConns.Keys, ips)
    ensures m.Valid() ==> InterfacesOk(ips)
  {
    ips := m.InterfaceIPs();
    if m.Valid() { InterfacesAreOk(m, ips); }
  }

  lemma InterfacesAreOk(m: Manager, ips: map<string, string>)
    requires m.Valid() && AreInterfaces(m.clientPeers, m.wgConns, m.wgConns.Keys, ips)
    ensures InterfacesOk(ips)
  {
    hide EdgeIP;
    hide AreInterfaces;
    hide Consistent;
    hide PlainIP;
    InterfacesApart(m.clientPeers, m.wgConns, ips);
    forall name | name in ips ensures PlainIP(ips[name]) {
      var id :| id in m.clientPeers && m.clientPeers[id].index >= 0 && ips[name] == EdgeIP(m.clientPeers[id].index);
      EdgeIPIsPlain(m.clientPeers[id].index);
    }
  }

  /** A device that comes up under a new name is a new interface to the listeners, under
      an address of its own. */
  lemma TunnelIsNewInterface(m: Manager, ips: map<string, string>, id: string, name: string)
    requires m.Valid() && AreInterfaces(m.clientPeers, m.wgConns, m.wgConns.Keys, ips)
    requires id in m.wgConns && m.wgConns[id].tun.None?
    requires forall k :: k in m.wgConns ==> m.wgConns[k].tun != Some(name)
    ensures id in m.clientPeers && IsNewInterface(ips, name, m.clientPeers[id].edgeIP)
  {
    hide EdgeIP;
    hide PlainIP;
    var peers, conns := m.clientPeers, m.wgConns;
    var p := peers[id];
    assert WellNumbered(p);
    EdgeIPIsPlain(p.index);
    forall other | other in ips ensures ips[other] != p.edgeIP {
      var k :| HasDevice(peers, conns, conns.Keys, k, other) && ips[other] == peers[k].edgeIP;
      assert WellNumbered(peers[k]);
      AddressesApart(peers[k].index, p.index);
    }
  }
}
