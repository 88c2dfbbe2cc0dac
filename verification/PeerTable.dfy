/** The WireGuard manager's peer and connection tables, one handler at a time
    (pkg/providers/wireguard/manager.go). */
module PeerTable {
  import opened Strings
  import opened Numerals

  const INDICES: nat := 255

  function EdgeIP(index: nat): string { "10.0." + Print(index, 10) + ".1" }
  function ClientIP(index: nat): string { "10.0." + Print(index, 10) + ".2" }

  /** Different indices give different addresses, at either end of a tunnel. */
  lemma AddressesApart(i: nat, j: nat)
    ensures EdgeIP(i) == EdgeIP(j) <==> i == j
    ensures ClientIP(i) == ClientIP(j) <==> i == j
    ensures EdgeIP(i) != ClientIP(j)
  {
    var p, q := Print(i, 10), Print(j, 10);
    assert EdgeIP(i)[5..|EdgeIP(i)| - 2] == p && EdgeIP(j)[5..|EdgeIP(j)| - 2] == q;
    assert ClientIP(i)[5..|ClientIP(i)| - 2] == p && ClientIP(j)[5..|ClientIP(j)| - 2] == q;
    assert EdgeIP(i)[|EdgeIP(i)| - 1] == '1' && ClientIP(j)[|ClientIP(j)| - 1] == '2';
    if p == q { PrintInjective(i, j); }
  }

  /** An entry of the peer table; its fields are final once it is stored. */
  class Peer {
    const id: string
    const index: int
    const edgeIP: string
    const clientIP: string

    constructor (id: string, index: int, edgeIP: string, clientIP: string)
      ensures this.id == id && this.index == index && this.edgeIP == edgeIP && this.clientIP == clientIP
    {
      this.id, this.index, this.edgeIP, this.clientIP := id, index, edgeIP, clientIP;
    }
  }

  class Connection {
    const peer: Peer
    var connected: bool
    var tun: Option<string>

    constructor (peer: Peer)
      ensures this.peer == peer && !connected && tun.None?
    {
      this.peer := peer;
      connected, tun := false, None;
    }
  }

  predicate WellNumbered(p: Peer) {
    0 <= p.index < INDICES && p.edgeIP == EdgeIP(p.index) && p.clientIP == ClientIP(p.index)
  }

  predicate DistinctIndices(peers: map<string, Peer>) {
    forall a, b :: a in peers && b in peers && a != b ==> peers[a].index != peers[b].index
  }

  function UsedIndices(peers: map<string, Peer>): set<int> {
    set id | id in peers :: peers[id].index
  }

  predicate IsFree(peers: map<string, Peer>, i: int) {
    0 <= i < INDICES && i !in UsedIndices(peers)
  }

  lemma FreeMeans(peers: map<string, Peer>, i: int)
    ensures IsFree(peers, i) <==> 0 <= i < 255 && forall id :: id in peers ==> peers[id].index != i
  {
    if forall id :: id in peers ==> peers[id].index != i {
      assert i !in UsedIndices(peers);
    } else {
      var id :| id in peers && peers[id].index == i;
      assert i in UsedIndices(peers);
    }
  }

  /** The numbers below n. */
  function UpTo(n: nat): set<int> { if n == 0 then {} else UpTo(n - 1) + {n - 1} }

  lemma {:induction false} UpToHolds(n: nat)
    ensures |UpTo(n)| == n && forall i :: i in UpTo(n) <==> 0 <= i < n
  {
    if n > 0 { UpToHolds(n - 1); }
  }

  lemma {:induction false} UsedAtMost(peers: map<string, Peer>)
    ensures |UsedIndices(peers)| <= |peers|
    ensures DistinctIndices(peers) ==> |UsedIndices(peers)| == |peers|
    decreases |peers|
  {
    if peers != map[] {
      var id :| id in peers;
      var rest := peers - {id};
      UsedAtMost(rest);
      assert rest.Keys == peers.Keys - {id};
      assert UsedIndices(peers) == UsedIndices(rest) + {peers[id].index} by {
        forall i | i in UsedIndices(peers) ensures i in UsedIndices(rest) + {peers[id].index} {
          var k :| k in peers && peers[k].index == i;
          assert k == id || (k in rest && rest[k].index == i);
        }
      }
      if DistinctIndices(peers) {
        assert forall a :: a in rest ==> a in peers && a != id && rest[a] == peers[a];
        assert peers[id].index !in UsedIndices(rest);
      }
    }
  }

  lemma {:induction false} SmallerSubset<T>(a: set<T>, b: set<T>)
    requires a <= b
    ensures |a| <= |b|
    decreases |a|
  {
    if a != {} {
      var x :| x in a;
      SmallerSubset(a - {x}, b - {x});
    }
  }

  lemma SubsetOfSameSize<T>(a: set<T>, b: set<T>)
    requires a <= b && |a| >= |b|
    ensures a == b
  {
    if a != b {
      var x :| x in b && x !in a;
      SmallerSubset(a, b - {x});
    }
  }

  lemma Outside<T>(a: set<T>, b: set<T>) returns (x: T)
    requires |a| < |b|
    ensures x in b && x !in a
  {
    if b <= a { SmallerSubset(b, a); }
    x :| x in b && x !in a;
  }

  predicate NumberedInRange(peers: map<string, Peer>) {
    DistinctIndices(peers) && forall id :: id in peers ==> 0 <= peers[id].index < INDICES
  }

  /** Pigeonhole: when indices are distinct and in range, one is free exactly as
      long as fewer than 255 peers are known. */
  lemma FreeIndexExactly(peers: map<string, Peer>)
    requires NumberedInRange(peers)
    ensures (exists i :: IsFree(peers, i)) <==> |peers| < 255
  {
    UsedAtMost(peers);
    UpToHolds(INDICES);
    var used := UsedIndices(peers);
    if |peers| < INDICES {
      var i := Outside(used, UpTo(INDICES));
      assert IsFree(peers, i);
    } else {
      SubsetOfSameSize(used, UpTo(INDICES));
      forall i ensures !IsFree(peers, i) {
        if 0 <= i < INDICES { assert i in UpTo(INDICES); }
      }
    }
  }

  /** Peers are numbered apart, their addresses follow from their numbers, and
      every connection belongs to the current entry of a known peer. */
  predicate Consistent(peers: map<string, Peer>, conns: map<string, Connection>) {
    && (forall id :: id in peers ==> peers[id].id == id && WellNumbered(peers[id]))
    && DistinctIndices(peers)
    && (forall id :: id in conns ==> id in peers && conns[id].peer == peers[id])
  }

  lemma RenewKnown(peers: map<string, Peer>, conns: map<string, Connection>, p: Peer)
    requires Consistent(peers, conns) && p.id in peers && WellNumbered(p) && p.index == peers[p.id].index
    ensures Consistent(peers[p.id := p], conns - {p.id})
  {
  }

  lemma AddUnknown(peers: map<string, Peer>, conns: map<string, Connection>, p: Peer)
    requires Consistent(peers, conns) && p.id !in peers && WellNumbered(p)
    ensures Consistent(peers[p.id := p], conns) <==> IsFree(peers, p.index)
  {
    var peers' := peers[p.id := p];
    if IsFree(peers, p.index) {
      forall a | a in peers ensures peers[a].index != p.index {
        assert peers[a].index in UsedIndices(peers);
      }
    } else {
      var a :| a in peers && peers[a].index == p.index;
      assert peers'[a].index == peers'[p.id].index;
    }
  }

  /** A peer known before and after has kept its number and its addresses. */
  predicate KeepNumbers(before: map<string, Peer>, after: map<string, Peer>) {
    forall id :: id in before && id in after ==> SameNumbers(before[id], after[id])
  }

  predicate SameNumbers(p: Peer, q: Peer) {
    p.index == q.index && p.edgeIP == q.edgeIP && p.clientIP == q.clientIP
  }

  /** What a WebRTC session reports: it is up, it is closed, disconnected or failed, or
      it is on its way. */
  datatype SessionState = Connected | Gone | Underway

  /** Anything that can reach the manager, in any order and from anyone. A state
      change may come late, from a session that is no longer the current one. */
  datatype Event =
    | ConnectRequest(id: string, index: int, edgeIP: string, clientIP: string, replied: bool)
    | Offer(from: string, created: bool, answered: bool)
    | StateChange(id: string, state: SessionState, current: bool)
    | TunReady(id: string, name: string)
    | Disconnect(id: string)

  /** The connections among ids that have a device of this name and a known peer. */
  predicate HasDevice(peers: map<string, Peer>, conns: map<string, Connection>, ids: set<string>, id: string,
                      name: string)
    reads conns.Values
  {
    id in ids && id in conns && id in peers && conns[id].tun == Some(name)
  }

  /** Each device of those connections, with the edge address of a peer behind it. */
  ghost predicate AreInterfaces(peers: map<string, Peer>, conns: map<string, Connection>, ids: set<string>,
                                ips: map<string, string>)
    reads conns.Values
  {
    && (forall name :: name in ips ==>
          exists id :: HasDevice(peers, conns, ids, id, name) && ips[name] == peers[id].edgeIP)
    && (forall id, name :: HasDevice(peers, conns, ids, id, name) ==> name in ips)
  }

  lemma InterfacesOneMore(peers: map<string, Peer>, conns: map<string, Connection>, ids: set<string>,
                          ips: map<string, string>, id: string)
    requires AreInterfaces(peers, conns, ids, ips) && id in conns
    ensures AreInterfaces(peers, conns, ids + {id},
                          if conns[id].tun.Some? && id in peers then ips[conns[id].tun.value := peers[id].edgeIP]
                          else ips)
  {
    var more := if conns[id].tun.Some? && id in peers then ips[conns[id].tun.value := peers[id].edgeIP] else ips;
    forall name | name in more
      ensures exists k :: HasDevice(peers, conns, ids + {id}, k, name) && more[name] == peers[k].edgeIP
    {
      if conns[id].tun == Some(name) && id in peers {
        assert HasDevice(peers, conns, ids + {id}, id, name);
      } else {
        var k :| HasDevice(peers, conns, ids, k, name) && ips[name] == peers[k].edgeIP;
        assert HasDevice(peers, conns, ids + {id}, k, name);
      }
    }
    forall k, name | HasDevice(peers, conns, ids + {id}, k, name) ensures name in more {
      if k != id { assert HasDevice(peers, conns, ids, k, name); }
    }
  }

  /** Peers that are numbered apart have their addresses apart. */
  lemma InterfacesApart(peers: map<string, Peer>, conns: map<string, Connection>, ips: map<string, string>)
    requires Consistent(peers, conns) && AreInterfaces(peers, conns, conns.Keys, ips)
    ensures forall a, b :: a in ips && b in ips && a != b ==> ips[a] != ips[b]
    ensures forall name :: name in ips ==>
              exists id :: id in peers && peers[id].index >= 0 && ips[name] == EdgeIP(peers[id].index)
  {
    hide EdgeIP;
    hide ClientIP;
    forall a, b | a in ips && b in ips && a != b ensures ips[a] != ips[b] {
      var i :| HasDevice(peers, conns, conns.Keys, i, a) && ips[a] == peers[i].edgeIP;
      var j :| HasDevice(peers, conns, conns.Keys, j, b) && ips[b] == peers[j].edgeIP;
      assert WellNumbered(peers[i]) && WellNumbered(peers[j]);
      AddressesApart(peers[i].index, peers[j].index);
    }
    forall name | name in ips
      ensures exists id :: id in peers && peers[id].index >= 0 && ips[name] == EdgeIP(peers[id].index)
    {
      var i :| HasDevice(peers, conns, conns.Keys, i, name) && ips[name] == peers[i].edgeIP;
      assert WellNumbered(peers[i]);
    }
  }

  /** Whether an event can close the connection of this peer for good. */
  predicate MayTakeDown(event: Event, id: string) {
    match event
    case StateChange(gone, state, _) => gone == id && state.Gone?
    case Disconnect(gone) => gone == id
    case Offer(from, _, _) => from == id
    case _ => false
  }

  /** What a consistent table says about a peer that asks to connect. */
  lemma Facts(peers: map<string, Peer>, conns: map<string, Connection>, id: string)
    requires Consistent(peers, conns)
    ensures (exists i :: IsFree(peers, i)) <==> |peers| < INDICES
    ensures forall i :: IsFree(peers, i) ==> 0 <= i < INDICES
    ensures id in peers ==> WellNumbered(peers[id]) && peers[id].edgeIP != ""
    ensures id !in peers ==> id !in conns
    ensures id in peers && id !in conns ==> conns - {id} == conns
  {
    assert forall k :: k in peers ==> WellNumbered(peers[k]);
    FreeIndexExactly(peers);
  }

  class Manager {
    var clientPeers: map<string, Peer>
    var wgConns: map<string, Connection>

    ghost predicate Valid()
      reads this
    {
      Consistent(clientPeers, wgConns)
    }

    constructor ()
      ensures Valid() && clientPeers == map[] && wgConns == map[]
    {
      clientPeers, wgConns := map[], map[];
    }

    /** findAvailableIndex: the least free index, or 0 when there is none. */
    method FindAvailableIndex() returns (index: nat)
      ensures (exists i :: IsFree(clientPeers, i)) ==>
                IsFree(clientPeers, index) && forall i :: 0 <= i < index ==> !IsFree(clientPeers, i)
      ensures index < 255 && (index > 0 ==> forall id :: id in clientPeers ==> clientPeers[id].index != index)
      ensures !(exists i :: IsFree(clientPeers, i)) ==> index == 0
    {
      var used: set<int> := {};
      var left := clientPeers.Keys;
      while left != {}
        invariant left <= clientPeers.Keys
        invariant used == set id | id in clientPeers && id !in left :: clientPeers[id].index
        decreases left
      {
        var id :| id in left;
        used := used + {clientPeers[id].index};
        left := left - {id};
      }
      assert used == UsedIndices(clientPeers);
      for i := 0 to INDICES
        invariant forall k :: 0 <= k < i ==> !IsFree(clientPeers, k)
      {
        if i !in used {
          FreeMeans(clientPeers, i);
          return i;
        }
      }
      return 0;
    }

    /** closeConnectionFromPeer: forgets the connection and with it the peer. */
    method CloseConnection(id: string)
      modifies this
      ensures id in old(wgConns) ==> wgConns == old(wgConns) - {id} && clientPeers == old(clientPeers) - {id}
      ensures id !in old(wgConns) ==> wgConns == old(wgConns) && clientPeers == old(clientPeers)
      ensures old(Valid()) ==> Valid()
    {
      if id in wgConns {
        wgConns := wgConns - {id};
        clientPeers := clientPeers - {id};
      }
    }

    /** handleConnectRequestInner. A known peer keeps its numbers whatever it asks
        for; an unknown one is numbered here unless it brings an address along. */
    method HandleConnectRequest(id: string, index: int, edgeIP: string, clientIP: string, replied: bool)
      returns (ok: bool)
      modifies this
      ensures ok == replied
      ensures id in clientPeers && fresh(clientPeers[id]) && clientPeers[id].id == id
      ensures clientPeers - {id} == old(clientPeers) - {id}
      ensures wgConns == if id in old(clientPeers) then old(wgConns) - {id} else old(wgConns)
      ensures old(Valid()) && id in old(clientPeers) ==>
                Valid() && clientPeers[id].index == old(clientPeers)[id].index
                && clientPeers[id].edgeIP == old(clientPeers)[id].edgeIP
                && clientPeers[id].clientIP == old(clientPeers)[id].clientIP
      ensures id !in old(clientPeers) && edgeIP != "" ==>
                && clientPeers[id].index == index && clientPeers[id].edgeIP == edgeIP
                && clientPeers[id].clientIP == clientIP
      ensures old(Valid()) && id !in old(clientPeers) && edgeIP == "" ==> (Valid() <==> |old(clientPeers)| < 255)
      ensures old(Valid()) && id !in old(clientPeers) && edgeIP == "" && |old(clientPeers)| < 255 ==>
                IsFree(old(clientPeers), clientPeers[id].index)
                && forall i :: 0 <= i < clientPeers[id].index ==> !IsFree(old(clientPeers), i)
    {
      hide EdgeIP;
      hide ClientIP;
      hide Consistent;
      hide IsFree;
      ghost var known, conns := clientPeers, wgConns;
      if old(Valid()) { Facts(known, conns, id); }
      var index, edgeIP, clientIP := index, edgeIP, clientIP;
      if id in clientPeers {
        index, edgeIP, clientIP := clientPeers[id].index, clientPeers[id].edgeIP, clientPeers[id].clientIP;
        CloseConnection(id);
      }
      if edgeIP == "" {
        index := FindAvailableIndex();
        edgeIP, clientIP := EdgeIP(index), ClientIP(index);
      }
      var peer := new Peer(id, index, edgeIP, clientIP);
      clientPeers := clientPeers[id := peer];
      assert clientPeers == known[id := peer];
      if old(Valid()) {
        if id in known {
          RenewKnown(known, conns, peer);
        } else if WellNumbered(peer) {
          AddUnknown(known, conns, peer);
        }
      }
      return replied;
    }

    /** Whether an offer finds a session that is up, or one that is not. */
    predicate Up(from: string)
      reads this, wgConns.Values
    {
      from in wgConns && wgConns[from].connected
    }

    predicate Stale(from: string)
      reads this, wgConns.Values
    {
      from != "" && from in wgConns && !wgConns[from].connected
    }

    /** handleOffer. An offer over a session that is not up drops the peer entry
        along with the session, and then reports the peer as unknown. A session that
        was created stays, also when answering the offer fails and that is reported. */
    method HandleOffer(from: string, created: bool, answered: bool) returns (ok: bool)
      modifies this
      ensures old(Valid()) ==> Valid()
      ensures from == "" ==> !ok && clientPeers == old(clientPeers) && wgConns == old(wgConns)
      ensures clientPeers == if old(Stale(from)) then old(clientPeers) - {from} else old(clientPeers)
      ensures wgConns - {from} == old(wgConns) - {from}
      ensures from != "" ==>
                var made := !old(Up(from)) && !old(Stale(from)) && from in old(clientPeers) && created;
                && (from in wgConns <==> old(Up(from)) || made)
                && ok == (old(Up(from)) || (made && answered))
                && (old(Up(from)) ==> wgConns[from] == old(wgConns)[from])
                && (made ==> fresh(wgConns[from]) && wgConns[from].peer == clientPeers[from]
                             && !wgConns[from].connected && wgConns[from].tun.None?)
    {
      if from == "" { return false; }
      if from in wgConns {
        if wgConns[from].connected {
          return true;
        }
        CloseConnection(from);
      }
      if from !in clientPeers || !created {
        return false;
      }
      var conn := new Connection(clientPeers[from]);
      wgConns := wgConns[from := conn];
      return answered;
    }

    /** A session reports its state; one that is gone takes down whatever session
        its peer has by now. */
    method HandleStateChange(id: string, state: SessionState, current: bool)
      modifies this, wgConns.Values`connected
      ensures old(Valid()) ==> Valid()
      ensures state.Gone? && id in old(wgConns) ==>
                clientPeers == old(clientPeers) - {id} && wgConns == old(wgConns) - {id}
      ensures !(state.Gone? && id in old(wgConns)) ==> clientPeers == old(clientPeers) && wgConns == old(wgConns)
      ensures id in old(wgConns) && current ==> old(wgConns)[id].connected == (state == Connected)
      ensures forall k :: k in old(wgConns) && (k != id || !current) && old(Valid()) ==>
                old(wgConns)[k].connected == old(wgConns[k].connected)
    {
      if current && id in wgConns {
        wgConns[id].connected := state.Connected?;
      }
      if state.Gone? {
        CloseConnection(id);
      }
    }

    method HandleTunReady(id: string, name: string)
      modifies wgConns.Values`tun
      ensures old(Valid()) ==> Valid()
      ensures id in wgConns ==> wgConns[id].tun == Some(name)
      ensures forall k :: k in wgConns && k != id && old(Valid()) ==> wgConns[k].tun == old(wgConns[k].tun)
    {
      if id in wgConns {
        wgConns[id].tun := Some(name);
      }
    }

    method DisconnectPeer(id: string) returns (ok: bool)
      modifies this
      ensures ok <==> id in old(wgConns)
      ensures id !in wgConns && (ok ==> id !in clientPeers)
      ensures clientPeers == if ok then old(clientPeers) - {id} else old(clientPeers)
      ensures wgConns == old(wgConns) - {id}
      ensures old(Valid()) ==> Valid()
    {
      if id !in wgConns { return false; }
      CloseConnection(id);
      return true;
    }

    /** GetInterfaceIPs: the edge address behind each tunnel device. */
    method InterfaceIPs() returns (ips: map<string, string>)
      ensures AreInterfaces(clientPeers, wgConns, wgConns.Keys, ips)
      ensures Valid() ==> forall a, b :: a in ips && b in ips && a != b ==> ips[a] != ips[b]
    {
      ips := map[];
      var left := wgConns.Keys;
      while left != {}
        invariant left <= wgConns.Keys && AreInterfaces(clientPeers, wgConns, wgConns.Keys - left, ips)
        decreases left
      {
        var id :| id in left;
        InterfacesOneMore(clientPeers, wgConns, wgConns.Keys - left, ips, id);
        assert wgConns.Keys - left + {id} == wgConns.Keys - (left - {id});
        left := left - {id};
        if wgConns[id].tun.Some? && id in clientPeers {
          ips := ips[wgConns[id].tun.value := clientPeers[id].edgeIP];
        }
      }
      assert wgConns.Keys - {} == wgConns.Keys;
      if Valid() { InterfacesApart(clientPeers, wgConns, ips); }
    }

    /** Whether an event meets the table's assumptions: an unknown peer brings no
        address of its own and finds fewer than 255 others. */
    predicate Fits(event: Event)
      reads this
    {
      event.ConnectRequest? ==>
        event.id in clientPeers || (event.edgeIP == "" && |clientPeers| < INDICES)
    }

    /** Whether an event closes the connection of this peer for good. A connect
        request closes it too, and enters the peer again. */
    predicate TakesDown(event: Event, id: string)
      reads this, wgConns.Values
    {
      match event
      case StateChange(gone, state, _) => gone == id && state.Gone? && id in wgConns
      case Disconnect(gone) => gone == id && id in wgConns
      case Offer(from, _, _) => from == id && Stale(from)
      case _ => false
    }

    method Handle(event: Event)
      modifies this, wgConns.Values
      ensures forall id :: id in old(clientPeers) && !old(TakesDown(event, id)) ==> id in clientPeers
      ensures old(Valid()) && old(Fits(event)) ==> Valid()
      ensures forall id :: id in wgConns ==>
                fresh(wgConns[id]) || (id in old(wgConns) && wgConns[id] == old(wgConns)[id])
      ensures old(Valid()) ==> KeepNumbers(old(clientPeers), clientPeers)
    {
      hide Consistent;
      match event
      case ConnectRequest(id, index, edgeIP, clientIP, replied) =>
        var _ := HandleConnectRequest(id, index, edgeIP, clientIP, replied);
        assert forall k :: k in old(clientPeers) && k != id ==> k in old(clientPeers) - {id};
        assert forall k :: k in clientPeers && k != id ==> k in clientPeers - {id};
      case Offer(from, created, answered) =>
        var _ := HandleOffer(from, created, answered);
        assert forall id :: id in wgConns && id != from ==> id in wgConns - {from};
      case StateChange(id, state, current) =>
        HandleStateChange(id, state, current);
      case TunReady(id, name) =>
        HandleTunReady(id, name);
      case Disconnect(id) =>
        var _ := DisconnectPeer(id);
    }

    /** Events in any order, as long as each fits, leave a consistent table; and a peer
        keeps its number and its addresses through all of them, connect requests of its
        own included, as long as none can close its connection. */
    method Serve(events: seq<Event>) returns (n: nat)
      requires Valid()
      modifies this, wgConns.Values
      ensures Valid() && n <= |events| && (n < |events| ==> !Fits(events[n]))
      ensures forall id :: id in old(clientPeers) && (forall k :: 0 <= k < n ==> !MayTakeDown(events[k], id)) ==>
                id in clientPeers && SameNumbers(old(clientPeers)[id], clientPeers[id])
    {
      hide Consistent;
      n := 0;
      while n < |events| && Fits(events[n])
        invariant Valid() && n <= |events|
        invariant forall id :: id in old(clientPeers) && (forall k :: 0 <= k < n ==> !MayTakeDown(events[k], id)) ==>
                    id in clientPeers && SameNumbers(old(clientPeers)[id], clientPeers[id])
        invariant forall id :: id in wgConns ==> fresh(wgConns[id]) || wgConns[id] in old(wgConns.Values)
      {
        Handle(events[n]);
        n := n + 1;
      }
    }
  }
}
