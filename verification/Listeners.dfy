/** The proxy's listeners as an index over the service table and the interfaces
    (pkg/providers/proxy/proxy.go, pkg/providers/proxy/routes.go,
    pkg/storage/repositories/service_repository.go). */
module Listeners {
  import opened Strings
  import opened Numerals

  datatype Service = Service(id: string, name: string, tunnelPort: nat, localHost: string, localPort: int,
                             path: Option<string>, protocol: string, requiredAuth: bool, enabled: bool)

  /** A partial update; absent fields stay as they are. */
  datatype Changes = Changes(name: Option<string>, localHost: Option<string>, localPort: Option<int>,
                             path: Option<string>, protocol: Option<string>, requiredAuth: Option<bool>,
                             enabled: Option<bool>)

  /** A running listener: its address, and the service as it was when started. */
  datatype Server = Server(addr: string, service: Service)

  type Table = map<string, Service>

  // -------------------------------------------------------- the repository

  predicate IsProtocol(p: string) { p == "http" || p == "https" || p == "ws" || p == "wss" }

  predicate Accepts(c: Changes) {
    && (c.name.Some? ==> c.name.value != "")
    && (c.localHost.Some? ==> c.localHost.value != "")
    && (c.localPort.Some? ==> 1 <= c.localPort.value <= 65535)
    && (c.protocol.Some? ==> IsProtocol(c.protocol.value))
    && c != Changes(None, None, None, None, None, None, None)
  }

  function Or<T>(change: Option<T>, current: T): T {
    if change.Some? then change.value else current
  }

  /** The row after an update: no update touches the id or the tunnel port. */
  function Apply(s: Service, c: Changes): Service {
    s.(name := Or(c.name, s.name), localHost := Or(c.localHost, s.localHost), localPort := Or(c.localPort, s.localPort),
       path := if c.path.Some? then c.path else s.path, protocol := Or(c.protocol, s.protocol),
       requiredAuth := Or(c.requiredAuth, s.requiredAuth), enabled := Or(c.enabled, s.enabled))
  }

  /** An update gives the named fields their new values and leaves the others, the id and
      the tunnel port among them. */
  lemma UpdatedRow(s: Service, c: Changes)
    ensures var row := Apply(s, c);
            && row.id == s.id && row.tunnelPort == s.tunnelPort
            && (if c.name.None? then row.name == s.name else c.name == Some(row.name))
            && (if c.localHost.None? then row.localHost == s.localHost else c.localHost == Some(row.localHost))
            && (if c.localPort.None? then row.localPort == s.localPort else c.localPort == Some(row.localPort))
            && (if c.path.None? then row.path == s.path else c.path == row.path)
            && (if c.protocol.None? then row.protocol == s.protocol else c.protocol == Some(row.protocol))
            && (if c.requiredAuth.None? then row.requiredAuth == s.requiredAuth
                else c.requiredAuth == Some(row.requiredAuth))
            && (if c.enabled.None? then row.enabled == s.enabled else c.enabled == Some(row.enabled))
  {
  }

  /** The updates that the repository refuses. */
  lemma RefusedExactly(c: Changes)
    ensures !Accepts(c) <==>
              || c.name == Some("") || c.localHost == Some("")
              || (c.localPort.Some? && (c.localPort.value < 1 || c.localPort.value > 65535))
              || (c.protocol.Some? && c.protocol.value !in ["http", "https", "ws", "wss"])
              || (c.name.None? && c.localHost.None? && c.localPort.None? && c.path.None? && c.protocol.None?
                  && c.requiredAuth.None? && c.enabled.None?)
  {
  }

  // ---------------------------------------------------- addresses and keys

  function Addr(ip: string, port: nat): string { ip + ":" + Print(port, 10) }

  function Key(id: string, addr: string): string { id + "-" + addr }

  /** net.SplitHostPort, for hosts without brackets. */
  function HostOf(addr: string): Option<string> {
    var parts := Split(addr, ':');
    if |parts| == 2 then Some(parts[0]) else None
  }

  /** An address as the tunnels have it: dotted, so free of ':' and '-'. */
  predicate PlainIP(ip: string) { ':' !in ip && '-' !in ip }

  lemma PrintsDigits(port: nat)
    ensures ':' !in Print(port, 10) && '-' !in Print(port, 10)
  {
    ValueOfPrint(port, 10);
  }

  lemma HostOfParts(ip: string, port: string)
    requires ':' !in ip && ':' !in port
    ensures HostOf(ip + ":" + port) == Some(ip)
  {
    SplitPrefix(ip, ':', port);
    SplitNone(port, ':');
    assert ip + ":" + port == ip + [':'] + port;
  }

  lemma AddrParts(ip: string, port: nat)
    requires PlainIP(ip)
    ensures HostOf(Addr(ip, port)) == Some(ip) && '-' !in Addr(ip, port)
  {
    hide Print;
    hide HostOf;
    PrintsDigits(port);
    HostOfParts(ip, Print(port, 10));
  }

  lemma PortText()
    ensures Print(8000, 10) == "8000"
  {
    OneDigitMore(0, 8);
    OneDigitMore(8, 0);
    OneDigitMore(80, 0);
    OneDigitMore(800, 0);
  }

  /** A key and an address as they are written. */
  lemma ExampleKey()
    ensures Key("a", Addr("10.0.0.1", 8000)) == "a-10.0.0.1:8000"
  {
    hide Print;
    PortText();
    assert "a" + "-" + ("10.0.0.1" + ":" + "8000") == "a-10.0.0.1:8000";
  }

  lemma PrefixCases(id: string, other: string, addr: string)
    requires HasPrefix(Key(other, addr), id + "-")
    ensures id == other || HasPrefix(other, id + "-") || '-' in addr
  {
    var key := Key(other, addr);
    assert key[|id|] == (id + "-")[|id|] == '-';
    assert key[..|id|] == (id + "-")[..|id|] == id;
    if |id| > |other| {
      assert key[|id|] == addr[|id| - |other| - 1];
    } else if |id| == |other| {
      assert key[..|id|] == other;
    } else {
      assert other[..|id| + 1] == key[..|id| + 1];
    }
  }

  /** The prefix id + "-" picks the keys of that service, and of any service whose
      own id continues after such a prefix. */
  lemma PrefixSelects(id: string, other: string, addr: string)
    requires '-' !in addr
    ensures HasPrefix(Key(other, addr), id + "-") <==> id == other || HasPrefix(other, id + "-")
  {
    var key := Key(other, addr);
    if id == other {
      assert key[..|id| + 1] == id + "-";
    } else if HasPrefix(other, id + "-") {
      assert key[..|id| + 1] == other[..|id| + 1];
    }
    if HasPrefix(key, id + "-") { PrefixCases(id, other, addr); }
  }

  /** No id continues another one after a '-'; holds of ids without any '-'. */
  predicate IdsApart(ids: set<string>) {
    forall a, b :: a in ids && b in ids && a != b ==> !HasPrefix(b, a + "-")
  }

  lemma PrefixHasDash(a: string, b: string)
    ensures HasPrefix(b, a + "-") ==> '-' in b
  {
    if HasPrefix(b, a + "-") { assert b[|a|] == b[..|a| + 1][|a|] == '-'; }
  }

  lemma NoDashesApart(ids: set<string>)
    requires forall id :: id in ids ==> '-' !in id
    ensures IdsApart(ids)
  {
    forall a, b ensures HasPrefix(b, a + "-") ==> '-' in b { PrefixHasDash(a, b); }
  }

  lemma DashMoves(a: string, addrA: string, b: string, addrB: string)
    requires Key(a, addrA) == Key(b, addrB) && |a| < |b|
    ensures '-' in addrA
  {
    var k := Key(a, addrA);
    assert k[|b|] == '-' && k[|b|] == addrA[|b| - |a| - 1];
  }

  lemma KeysApart(a: string, addrA: string, b: string, addrB: string)
    requires '-' !in addrA && '-' !in addrB && Key(a, addrA) == Key(b, addrB)
    ensures a == b && addrA == addrB
  {
    if |a| < |b| { DashMoves(a, addrA, b, addrB); }
    if |b| < |a| { DashMoves(b, addrB, a, addrA); }
    var k := Key(a, addrA);
    assert k[..|a|] == a && k[..|b|] == b && k[|a| + 1..] == addrA && k[|b| + 1..] == addrB;
  }

  // ----------------------------------------------------------- consistency

  predicate DistinctPorts(services: Table) {
    forall a, b :: a in services && b in services && a != b ==> services[a].tunnelPort != services[b].tunnelPort
  }

  predicate TableOk(services: Table) {
    (forall id :: id in services ==> services[id].id == id) && IdsApart(services.Keys) && DistinctPorts(services)
  }

  predicate InterfacesOk(interfaces: map<string, string>) {
    && (forall n :: n in interfaces ==> PlainIP(interfaces[n]))
    && (forall m, n :: m in interfaces && n in interfaces && m != n ==> interfaces[m] != interfaces[n])
  }

  /** What a listener was started with is still what the table says. */
  predicate Matches(s: Service, row: Service) {
    s.id == row.id && s.tunnelPort == row.tunnelPort && s.localHost == row.localHost && s.localPort == row.localPort
  }

  predicate Registered(services: Table, ips: set<string>, key: string, s: Server) {
    && key == Key(s.service.id, s.addr)
    && HostOf(s.addr).Some? && HostOf(s.addr).value in ips
    && s.addr == Addr(HostOf(s.addr).value, s.service.tunnelPort) && PlainIP(HostOf(s.addr).value)
    && s.service.id in services && services[s.service.id].enabled && Matches(s.service, services[s.service.id])
  }

  /** Every listener is an enabled service on a current interface, at the service's
      tunnel port and with its current target. */
  predicate Sound(services: Table, ips: set<string>, servers: map<string, Server>) {
    forall k :: k in servers ==> Registered(services, ips, k, servers[k])
  }

  /** The keys a service needs on the given addresses. */
  function KeysOf(service: Service, ips: set<string>): set<string> {
    set ip | ip in ips :: Key(service.id, Addr(ip, service.tunnelPort))
  }

  /** Enabled services times interface addresses. */
  function Expected(services: Table, ips: set<string>): set<string> {
    set id, k | id in services && services[id].enabled && k in KeysOf(services[id], ips) :: k
  }

  lemma SoundIsExpected(services: Table, ips: set<string>, servers: map<string, Server>)
    requires Sound(services, ips, servers)
    ensures servers.Keys <= Expected(services, ips)
  {
    forall k | k in servers ensures k in Expected(services, ips) {
      var s := servers[k];
      assert Registered(services, ips, k, s);
      assert k in KeysOf(services[s.service.id], ips);
    }
  }

  /** Every enabled service listens on every interface. */
  predicate Complete(services: Table, ips: set<string>, servers: map<string, Server>) {
    Expected(services, ips) <= servers.Keys
  }

  lemma ExpectedOfOneMore(services: Table, ips: set<string>, id: string)
    requires id in services
    ensures Expected(services, ips)
         == Expected(services - {id}, ips) + if services[id].enabled then KeysOf(services[id], ips) else {}
  {
    var rest := services - {id};
    forall k | k in Expected(services, ips)
      ensures k in Expected(rest, ips) || (services[id].enabled && k in KeysOf(services[id], ips))
    {
      var other :| other in services && services[other].enabled && k in KeysOf(services[other], ips);
      assert other != id ==> other in rest && rest[other] == services[other];
    }
  }

  function Without(servers: map<string, Server>, id: string): map<string, Server> {
    map k | k in servers && !HasPrefix(k, id + "-") :: servers[k]
  }

  /** Sound, except that the listeners of one service may be out of date. */
  predicate SoundBut(services: Table, ips: set<string>, servers: map<string, Server>, id: string) {
    forall k :: k in servers ==>
      || Registered(services, ips, k, servers[k])
      || (servers[k].service.id == id && k == Key(id, servers[k].addr) && '-' !in servers[k].addr)
  }

  /** Stopping a service removes its listeners, out of date or not, and nobody
      else's. */
  lemma StopIsExact(services: Table, ips: set<string>, servers: map<string, Server>, id: string)
    requires SoundBut(services, ips, servers, id) && IdsApart(services.Keys + {id})
    ensures Sound(services, ips, Without(servers, id))
    ensures forall k :: k in servers ==> (k in Without(servers, id) <==> servers[k].service.id != id)
  {
    forall k | k in servers ensures k in Without(servers, id) <==> servers[k].service.id != id {
      var s := servers[k];
      if Registered(services, ips, k, s) { AddrParts(HostOf(s.addr).value, s.service.tunnelPort); }
      PrefixSelects(id, s.service.id, s.addr);
    }
  }

  /** Changing, adding or dropping a row outdates at most that row's listeners. */
  lemma RowChanged(services: Table, services': Table, ips: set<string>, servers: map<string, Server>, id: string)
    requires Sound(services, ips, servers) && services' - {id} == services - {id}
    ensures SoundBut(services', ips, servers, id)
    ensures (forall k :: k in servers ==> servers[k].service.id != id) ==> Sound(services', ips, servers)
  {
    forall k | k in servers
      ensures Registered(services', ips, k, servers[k]) ||
              (servers[k].service.id == id && k == Key(id, servers[k].addr) && '-' !in servers[k].addr)
    {
      assert Registered(services, ips, k, servers[k]);
      var s := servers[k];
      AddrParts(HostOf(s.addr).value, s.service.tunnelPort);
      var other := s.service.id;
      assert other != id ==> other in services - {id} && (services - {id})[other] == services[other];
      assert other != id ==> other in services' - {id} && (services' - {id})[other] == services'[other];
    }
  }

  lemma AddListener(services: Table, ips: set<string>, servers: map<string, Server>, service: Service, ip: string)
    requires Sound(services, ips, servers) && ip in ips && PlainIP(ip)
    requires service.id in services && services[service.id] == service && service.enabled
    ensures var addr := Addr(ip, service.tunnelPort);
            Sound(services, ips, servers[Key(service.id, addr) := Server(addr, service)])
  {
    AddrParts(ip, service.tunnelPort);
  }

  /** Stopping one service leaves the others complete. */
  lemma StopLeavesOthers(services: Table, ips: set<string>, servers: map<string, Server>, id: string)
    requires Complete(services - {id}, ips, servers) && IdsApart(services.Keys + {id})
    requires forall ip :: ip in ips ==> PlainIP(ip)
    requires forall k :: k in services ==> services[k].id == k
    ensures Complete(services - {id}, ips, Without(servers, id))
  {
    var rest := services - {id};
    forall k | k in Expected(rest, ips) ensures k in Without(servers, id) {
      var other :| other in rest && rest[other].enabled && k in KeysOf(rest[other], ips);
      var ip :| ip in ips && k == Key(rest[other].id, Addr(ip, rest[other].tunnelPort));
      AddrParts(ip, rest[other].tunnelPort);
      PrefixSelects(id, other, Addr(ip, rest[other].tunnelPort));
      assert k in servers;
    }
  }

  /** The keys whose addresses can be bound. */
  function BoundKeys(service: Service, ips: set<string>, binds: string -> bool): set<string> {
    set ip | ip in ips && binds(Addr(ip, service.tunnelPort)) :: Key(service.id, Addr(ip, service.tunnelPort))
  }

  /** After: what was there before, and the service's listeners where they bind. */
  predicate StartedOn(before: map<string, Server>, after: map<string, Server>, service: Service, ips: set<string>,
                      binds: string -> bool)
  {
    var keys := BoundKeys(service, ips, binds);
    && after.Keys == before.Keys + keys
    && (forall k :: k in keys ==> after[k].service == service && k == Key(service.id, after[k].addr))
    && (forall k :: k in before && k !in keys ==> after[k] == before[k])
  }

  /** The table holds this row and it is enabled. */
  predicate IsEnabledRow(services: Table, service: Service) {
    service.enabled && service.id in services && services[service.id] == service
  }

  /** The table after an update of one row that kept its id and its port. */
  predicate RowUpdated(table: Table, services: Table, id: string) {
    && services.Keys == table.Keys && services - {id} == table - {id}
    && (id in services ==> services[id].id == table[id].id && services[id].tunnelPort == table[id].tunnelPort)
  }

  lemma UpdateOutdates(table: Table, services: Table, ips: set<string>, servers: map<string, Server>, id: string)
    requires TableOk(table) && RowUpdated(table, services, id) && Sound(table, ips, servers)
    ensures TableOk(services) && SoundBut(services, ips, servers, id)
    ensures Complete(table, ips, servers) ==> Complete(services - {id}, ips, servers)
  {
    forall k | k in services ensures services[k].id == table[k].id && services[k].tunnelPort == table[k].tunnelPort {
      if k != id { assert k in table - {id} && services[k] == (services - {id})[k] == (table - {id})[k]; }
    }
    RowChanged(table, services, ips, servers, id);
    if id in table { ExpectedOfOneMore(table, ips, id); }
    assert id !in table ==> table - {id} == table;
  }

  lemma RowAdded(table: Table, row: Service, ips: set<string>, servers: map<string, Server>)
    requires TableOk(table) && Sound(table, ips, servers)
    requires row.id !in table && IdsApart(table.Keys + {row.id})
    requires forall id :: id in table ==> table[id].tunnelPort != row.tunnelPort
    ensures TableOk(table[row.id := row]) && Sound(table[row.id := row], ips, servers)
    ensures table[row.id := row] - {row.id} == table
  {
    var services := table[row.id := row];
    assert services.Keys == table.Keys + {row.id};
    assert services - {row.id} == table - {row.id} == table;
    RowChanged(table, services, ips, servers, row.id);
    assert forall k :: k in servers ==> Registered(table, ips, k, servers[k]);
  }

  /** Before a stop, the listeners of one service may count as out of date. */
  lemma RowOutdates(table: Table, ips: set<string>, servers: map<string, Server>, id: string)
    requires TableOk(table) && Sound(table, ips, servers) && id in table
    ensures SoundBut(table, ips, servers, id) && IdsApart(table.Keys + {id})
    ensures Complete(table, ips, servers) ==> Complete(table - {id}, ips, servers)
  {
    assert table.Keys + {id} == table.Keys;
    ExpectedOfOneMore(table, ips, id);
  }

  lemma RowDropped(table: Table, ips: set<string>, servers: map<string, Server>, id: string)
    requires TableOk(table) && Sound(table, ips, servers)
    requires forall k :: k in servers ==> servers[k].service.id != id
    ensures TableOk(table - {id}) && Sound(table - {id}, ips, servers)
  {
    RowChanged(table, table - {id}, ips, servers, id);
  }

  ghost predicate AllBind(binds: string -> bool) { forall a :: binds(a) }

  /** When every address binds, the row that was started is complete too. */
  lemma CompleteOneMore(services: Table, ips: set<string>, before: map<string, Server>, after: map<string, Server>,
                        id: string, binds: string -> bool)
    requires id in services && services[id].id == id && Complete(services - {id}, ips, before) && AllBind(binds)
    requires if services[id].enabled then StartedOn(before, after, services[id], ips, binds) else after == before
    ensures Complete(services, ips, after)
  {
    ExpectedOfOneMore(services, ips, id);
    if services[id].enabled {
      assert BoundKeys(services[id], ips, binds) == KeysOf(services[id], ips);
    }
  }

  /** Every enabled service listens wherever its address binds. */
  predicate ListensWhereBound(services: Table, ips: set<string>, servers: map<string, Server>, binds: string -> bool) {
    forall id, ip :: id in services && services[id].enabled && ip in ips ==>
      (binds(Addr(ip, services[id].tunnelPort)) ==> Key(services[id].id, Addr(ip, services[id].tunnelPort)) in servers)
  }

  lemma ListensOneMore(services: Table, ips: set<string>, before: map<string, Server>, after: map<string, Server>,
                       id: string, binds: string -> bool)
    requires id in services && ListensWhereBound(services - {id}, ips, before, binds) && before.Keys <= after.Keys
    requires services[id].enabled ==> BoundKeys(services[id], ips, binds) <= after.Keys
    ensures ListensWhereBound(services, ips, after, binds)
  {
    var rest := services - {id};
    forall other, ip | other in services && services[other].enabled && ip in ips
      ensures binds(Addr(ip, services[other].tunnelPort)) ==>
                Key(services[other].id, Addr(ip, services[other].tunnelPort)) in after
    {
      if other != id {
        assert other in rest && rest[other] == services[other];
      } else if binds(Addr(ip, services[id].tunnelPort)) {
        assert Key(services[id].id, Addr(ip, services[id].tunnelPort)) in BoundKeys(services[id], ips, binds);
      }
    }
  }

  lemma StartedKeys(before: map<string, Server>, after: map<string, Server>, service: Service, ips: set<string>,
                    binds: string -> bool)
    requires StartedOn(before, after, service, ips, binds)
    ensures after.Keys == before.Keys + BoundKeys(service, ips, binds)
  {
  }

  // -------------------------------------------------------- the operations

  datatype Status = Ok | BadRequest | NotFound | Failed

  datatype Operation =
    | Add(id: string, name: string, localHost: string, localPort: int, protocol: string, requiredAuth: bool,
          path: Option<string>, bindable: nat -> bool)
    | Modify(id: string, changes: Changes)
    | Update(id: string, changes: Changes)
    | Delete(id: string)
    | InterfaceUp(name: string, ip: string)
    | InterfaceDown(name: string)

  /** Whether an operation starts again whatever it stops. */
  predicate Completes(op: Operation) {
    op.Update? ==> op.id == "" || op.changes.name == Some("") || op.changes.localHost == Some("") || Accepts(op.changes)
  }

  predicate AllComplete(ops: seq<Operation>) {
    forall i :: 0 <= i < |ops| ==> Completes(ops[i])
  }

  /** The ids that operations add or restart. */
  function IdsOf(ops: seq<Operation>): set<string> {
    set i | 0 <= i < |ops| && (ops[i].Add? || ops[i].Modify?) :: ops[i].id
  }

  function InterfaceAfter(interfaces: map<string, string>, op: Operation): map<string, string> {
    match op
    case InterfaceUp(name, ip) => interfaces[name := ip]
    case InterfaceDown(name) => interfaces - {name}
    case _ => interfaces
  }

  function InterfacesAfter(interfaces: map<string, string>, ops: seq<Operation>): map<string, string>
    decreases |ops|
  {
    if ops == [] then interfaces else InterfacesAfter(InterfaceAfter(interfaces, ops[0]), ops[1..])
  }

  /** Interfaces are added under names and addresses not in use. */
  predicate Fresh(interfaces: map<string, string>, ops: seq<Operation>)
    decreases |ops|
  {
    ops == [] || (
      && (ops[0].InterfaceUp? ==> IsNewInterface(interfaces, ops[0].name, ops[0].ip))
      && Fresh(InterfaceAfter(interfaces, ops[0]), ops[1..]))
  }

  lemma IdsOfOne(op: Operation)
    ensures IdsOf([op]) == if op.Add? || op.Modify? then {op.id} else {}
  {
    assert [op][0] == op;
  }

  lemma FreshHere(interfaces: map<string, string>, ops: seq<Operation>)
    requires Fresh(interfaces, ops) && ops != []
    ensures Fresh(interfaces, [ops[0]]) && Fresh(InterfaceAfter(interfaces, ops[0]), ops[1..])
  {
    assert [ops[0]][1..] == [];
  }

  lemma FitsHere(keys: set<string>, ops: seq<Operation>, k: nat, ids: set<string>)
    requires k < |ops| && keys + IdsOf(ops) <= ids && IdsApart(ids)
    ensures IdsApart(keys + IdsOf([ops[k]])) && IdsOf([ops[k]]) <= IdsOf(ops)
  {
    forall id | id in IdsOf([ops[k]]) ensures id in IdsOf(ops) { assert id == ops[k].id; }
  }

  lemma PortsOfTable(services: Table)
    requires TableOk(services)
    ensures DistinctPorts(services)
  {
  }

  predicate IsNewInterface(interfaces: map<string, string>, name: string, ip: string) {
    name !in interfaces && ip !in interfaces.Values && PlainIP(ip)
  }

  lemma InterfaceAdded(interfaces: map<string, string>, name: string, ip: string)
    requires InterfacesOk(interfaces) && IsNewInterface(interfaces, name, ip)
    ensures InterfacesOk(interfaces[name := ip]) && interfaces[name := ip].Values == interfaces.Values + {ip}
  {
    var more := interfaces[name := ip];
    assert forall n :: n in interfaces ==> more[n] == interfaces[n] && interfaces[n] in interfaces.Values;
    forall v | v in interfaces.Values + {ip} ensures v in more.Values {
      if v != ip {
        var n :| n in interfaces && interfaces[n] == v;
        assert more[n] == v;
      } else {
        assert more[name] == v;
      }
    }
  }

  lemma InterfaceRemoved(interfaces: map<string, string>, name: string)
    requires InterfacesOk(interfaces) && name in interfaces
    ensures InterfacesOk(interfaces - {name})
    ensures (interfaces - {name}).Values == interfaces.Values - {interfaces[name]}
  {
    var less := interfaces - {name};
    forall v | v in interfaces.Values - {interfaces[name]} ensures v in less.Values {
      var n :| n in interfaces && interfaces[n] == v;
      assert n in less && less[n] == v;
    }
  }

  function OffInterface(servers: map<string, Server>, ip: string): map<string, Server> {
    map k | k in servers && HostOf(servers[k].addr) != Some(ip) :: servers[k]
  }

  /** Taking an interface away keeps exactly what runs on the others. */
  lemma StopsOnInterface(services: Table, ips: set<string>, servers: map<string, Server>, ip: string)
    requires Sound(services, ips, servers) && TableOk(services) && forall i :: i in ips ==> PlainIP(i)
    ensures Sound(services, ips - {ip}, OffInterface(servers, ip))
    ensures Complete(services, ips, servers) ==> Complete(services, ips - {ip}, OffInterface(servers, ip))
  {
    if Complete(services, ips, servers) {
      forall k | k in Expected(services, ips - {ip}) ensures k in OffInterface(servers, ip) {
        var id :| id in services && services[id].enabled && k in KeysOf(services[id], ips - {ip});
        var i :| i in ips - {ip} && k == Key(services[id].id, Addr(i, services[id].tunnelPort));
        assert k in KeysOf(services[id], ips);
        assert k in Expected(services, ips);
        var s := servers[k];
        assert Registered(services, ips, k, s);
        AddrParts(HostOf(s.addr).value, s.service.tunnelPort);
        AddrParts(i, services[id].tunnelPort);
        KeysApart(id, Addr(i, services[id].tunnelPort), s.service.id, s.addr);
      }
    }
  }

  lemma ExpectedOnOneMore(services: Table, ips: set<string>, ip: string)
    ensures Expected(services, ips + {ip}) == Expected(services, ips) + Expected(services, {ip})
  {
    forall k | k in Expected(services, ips + {ip}) ensures k in Expected(services, ips) + Expected(services, {ip}) {
      var id :| id in services && services[id].enabled && k in KeysOf(services[id], ips + {ip});
      assert k in KeysOf(services[id], ips) || k in KeysOf(services[id], {ip});
    }
    forall k | k in Expected(services, ips) + Expected(services, {ip}) ensures k in Expected(services, ips + {ip}) {
      var id :| id in services && services[id].enabled
                && (k in KeysOf(services[id], ips) || k in KeysOf(services[id], {ip}));
      assert k in KeysOf(services[id], ips + {ip});
    }
  }

  lemma SoundOnMore(services: Table, ips: set<string>, servers: map<string, Server>, ip: string)
    requires Sound(services, ips, servers)
    ensures Sound(services, ips + {ip}, servers)
  {
    forall k | k in servers ensures Registered(services, ips + {ip}, k, servers[k]) {
      assert Registered(services, ips, k, servers[k]);
    }
  }

  lemma NoRowsYet(ips: set<string>, servers: map<string, Server>, binds: string -> bool)
    ensures Complete(map[], ips, servers) && ListensWhereBound(map[], ips, servers, binds)
  {
  }

  lemma CompleteOnBoth(services: Table, ips: set<string>, ip: string, servers: map<string, Server>)
    requires Complete(services, ips, servers) && Complete(services, {ip}, servers)
    ensures Complete(services, ips + {ip}, servers)
  {
    ExpectedOnOneMore(services, ips, ip);
  }

  /** One service more of those that startServicesOnInterface goes through. */
  lemma StepOnInterface(services: Table, values: set<string>, ips: set<string>, left: set<string>, id: string,
                        ip: string, before: map<string, Server>, after: map<string, Server>, sound: bool, full: bool,
                        binds: string -> bool)
    requires id in services && id !in left && (full ==> sound && AllBind(binds))
    requires after == if services[id].enabled && binds(Addr(ip, services[id].tunnelPort))
                      then before[Key(services[id].id, Addr(ip, services[id].tunnelPort)) :=
                                    Server(Addr(ip, services[id].tunnelPort), services[id])]
                      else before
    requires ListensWhereBound(services - left - {id}, {ip}, before, binds)
    requires sound ==> TableOk(services) && PlainIP(ip) && ip in values && Sound(services, values, before)
    requires full ==> Complete(services, ips, before) && Complete(services - left - {id}, {ip}, before)
    ensures before.Keys <= after.Keys && ListensWhereBound(services - left, {ip}, after, binds)
    ensures sound ==> Sound(services, values, after)
    ensures full ==> Complete(services, ips, after) && Complete(services - left, {ip}, after)
  {
    hide Sound;
    hide Complete;
    hide PlainIP;
    hide ListensWhereBound;
    if sound && after != before { AddListener(services, values, before, services[id], ip); }
    ListensOneMore(services - left, {ip}, before, after, id, binds);
    if full {
      StaysComplete(services, ips, before, after);
      assert services - left - {id} == services - (left + {id});
      CompleteOnInterface(services, left, before, after, id, ip);
    }
  }

  /** More listeners are as complete. */
  lemma StaysComplete(services: Table, ips: set<string>, before: map<string, Server>, after: map<string, Server>)
    requires Complete(services, ips, before) && before.Keys <= after.Keys
    ensures Complete(services, ips, after)
  {
  }

  lemma CompleteOnInterface(services: Table, left: set<string>, before: map<string, Server>, after: map<string, Server>,
                            id: string, ip: string)
    requires TableOk(services) && id in services && id !in left
    requires Complete(services - (left + {id}), {ip}, before)
    requires before.Keys <= after.Keys
    requires services[id].enabled ==> Key(id, Addr(ip, services[id].tunnelPort)) in after
    ensures Complete(services - left, {ip}, after)
  {
    ExpectedOfOneMore(services - left, {ip}, id);
    assert services - left - {id} == services - (left + {id});
    assert KeysOf(services[id], {ip}) == {Key(services[id].id, Addr(ip, services[id].tunnelPort))};
  }

  /** The listeners after an update: untouched unless the service was retargeted;
      else the service's listeners are gone, and if the update was accepted and the
      service is enabled, they are started anew from the updated row. */
  predicate AfterUpdate(before: map<string, Server>, after: map<string, Server>, id: string, row: Service,
                        restarts: bool, stops: bool, started: bool, ips: set<string>, binds: string -> bool)
  {
    if !stops then after == before
    else if restarts && row.enabled && started then StartedOn(Without(before, id), after, row, ips, binds)
    else after == Without(before, id)
  }

  /** strings.ToLower, of ASCII letters. */
  function Lower(s: string): string {
    seq(|s|, i requires 0 <= i < |s| => if 'A' <= s[i] <= 'Z' then s[i] - 'A' + 'a' else s[i])
  }

  /** The scheme a listener talks to its target with: upgrades start as plain requests. */
  function Scheme(protocol: string): string {
    if Lower(protocol) == "https" || Lower(protocol) == "wss" then "https" else "http"
  }

  /** What a listener puts before the path of a request. */
  function PathPrefix(path: Option<string>): string {
    if path.Some? then path.value else ""
  }

  predicate SameRoute(s: Service, row: Service) {
    Scheme(s.protocol) == Scheme(row.protocol) && PathPrefix(s.path) == PathPrefix(row.path)
  }

  /** The service's listeners send requests on as this row says. */
  predicate RoutesLike(servers: map<string, Server>, row: Service) {
    forall k :: k in servers && servers[k].service.id == row.id ==> SameRoute(servers[k].service, row)
  }

  /** A listener keeps the scheme and path it was started with. So after an update
      of a running service its listeners follow the row if and only if the update
      moved the target or the flag too, or left scheme and path alone. */
  lemma RoutesAfterUpdate(before: map<string, Server>, after: map<string, Server>, row: Service, c: Changes,
                          started: bool, services: Table, ips: set<string>, binds: string -> bool)
    requires Sound(services, ips, before) && RoutesLike(before, row) && IdsApart(services.Keys + {row.id})
    requires exists k :: k in before && before[k].service.id == row.id
    requires AfterUpdate(before, after, row.id, Apply(row, c), Retargets(row, c), Retargets(row, c), started,
                         ips, binds)
    ensures RoutesLike(after, Apply(row, c)) <==> Retargets(row, c) || SameRoute(Apply(row, c), row)
  {
    hide Sound;
    hide Apply;
    hide Retargets;
    hide SameRoute;
    ApplyKeepsId(row, c);
    SameRouteIsEquivalence();
    if Retargets(row, c) {
      StopsAll(services, ips, before, row.id);
    }
  }

  lemma ApplyKeepsId(row: Service, c: Changes)
    ensures Apply(row, c).id == row.id
  {
  }

  lemma SameRouteIsEquivalence()
    ensures forall a :: SameRoute(a, a)
    ensures forall a, b, c :: SameRoute(a, b) ==> (SameRoute(a, c) <==> SameRoute(c, b))
  {
  }

  lemma StopsAll(services: Table, ips: set<string>, servers: map<string, Server>, id: string)
    requires Sound(services, ips, servers) && IdsApart(services.Keys + {id})
    ensures forall k :: k in Without(servers, id) ==> servers[k].service.id != id
  {
    StopIsExact(services, ips, servers, id);
  }

  /** The handler stops before it validates: a rejected update leaves the listeners
      as they were if and only if it would not have stopped them, or none ran. */
  lemma RejectedUpdate(before: map<string, Server>, after: map<string, Server>, row: Service, c: Changes,
                       started: bool, services: Table, ips: set<string>, binds: string -> bool)
    requires Sound(services, ips, before) && IdsApart(services.Keys + {row.id}) && !Accepts(c)
    requires AfterUpdate(before, after, row.id, row, Retargets(row, c) && Accepts(c), Retargets(row, c), started,
                         ips, binds)
    ensures after == before <==> !Retargets(row, c) || forall k :: k in before ==> before[k].service.id != row.id
  {
    StopIsExact(services, ips, before, row.id);
  }

  /** Whether an update moves the target or toggles the service. */
  predicate Retargets(row: Service, c: Changes) {
    var after := Apply(row, c);
    after.localHost != row.localHost || after.localPort != row.localPort || after.enabled != row.enabled
  }

  function NoChanges(): Changes { Changes(None, None, None, None, None, None, None) }

  /** One service and its one listener. */
  function ExampleRow(): Service {
    Service("a", "web", 8000, "localhost", 80, None, "http", false, true)
  }

  function ExampleListeners(): map<string, Server> {
    map[Key("a", Addr("10.0.0.1", 8000)) := Server(Addr("10.0.0.1", 8000), ExampleRow())]
  }

  /** From http to https the row changes and the listener does not follow. */
  lemma HttpsWaitsForARestart(started: bool, binds: string -> bool)
    ensures var row, servers, c := ExampleRow(), ExampleListeners(), NoChanges().(protocol := Some("https"));
            && Accepts(c) && RoutesLike(servers, row)
            && AfterUpdate(servers, servers, "a", Apply(row, c), Retargets(row, c), Retargets(row, c), started,
                           {"10.0.0.1"}, binds)
            && !RoutesLike(servers, Apply(row, c))
  {
    hide Addr;
    hide Key;
    hide Scheme;
    Schemes();
    assert Key("a", Addr("10.0.0.1", 8000)) in ExampleListeners();
  }

  /** From http to ws, or from no path to an empty one, there is nothing to follow. */
  lemma UpgradesNeedNoRestart(c: Changes)
    requires c == NoChanges().(protocol := Some("ws")) || c == NoChanges().(path := Some(""))
    ensures Accepts(c) && !Retargets(ExampleRow(), c) && RoutesLike(ExampleListeners(), Apply(ExampleRow(), c))
  {
    hide Addr;
    hide Key;
    hide Scheme;
    Schemes();
  }

  lemma Schemes()
    ensures Scheme("http") == Scheme("ws") == "http" && Scheme("https") == Scheme("wss") == "https"
  {
    assert Lower("http") == "http" && Lower("ws") == "ws" && Lower("https") == "https" && Lower("wss") == "wss";
  }

  /** An update that asks for port 0 stops the listener and is then rejected. */
  lemma RejectedUpdateStops(started: bool, binds: string -> bool)
    ensures var row, servers, c := ExampleRow(), ExampleListeners(), NoChanges().(localPort := Some(0));
            && !Accepts(c) && servers != map[]
            && AfterUpdate(servers, map[], "a", row, Retargets(row, c) && Accepts(c), Retargets(row, c), started,
                           {"10.0.0.1"}, binds)
  {
    hide Addr;
    var k := Key("a", Addr("10.0.0.1", 8000));
    KeyHasPrefix("a", Addr("10.0.0.1", 8000));
    assert k in ExampleListeners();
    assert Without(ExampleListeners(), "a") == map[];
  }

  /** What the handler tests: whether a changed field differs from the row. */
  lemma RestartNeeded(row: Service, c: Changes)
    ensures Retargets(row, c) <==>
              || (c.localHost.Some? && c.localHost.value != row.localHost)
              || (c.localPort.Some? && c.localPort.value != row.localPort)
              || (c.enabled.Some? && c.enabled.value != row.enabled)
    ensures Apply(row, c).id == row.id && Apply(row, c).tunnelPort == row.tunnelPort
  {
  }

  lemma KeyHasPrefix(id: string, addr: string)
    ensures HasPrefix(Key(id, addr), id + "-")
  {
    assert Key(id, addr)[..|id| + 1] == id + "-";
  }

  lemma NoPrefixNoListener(services: Table, ips: set<string>, servers: map<string, Server>, id: string)
    requires Sound(services, ips, servers) && forall k :: k in servers ==> !HasPrefix(k, id + "-")
    ensures forall k :: k in servers ==> servers[k].service.id != id
    ensures servers == Without(servers, id)
  {
    forall k | k in servers ensures servers[k].service.id != id {
      assert Registered(services, ips, k, servers[k]);
      KeyHasPrefix(servers[k].service.id, servers[k].addr);
    }
  }

  /** A row without listeners may be replaced under the same id and port. */
  lemma RowReplaced(table: Table, services: Table, ips: set<string>, servers: map<string, Server>, id: string)
    requires TableOk(table) && RowUpdated(table, services, id) && Sound(table, ips, servers)
    requires forall k :: k in servers ==> servers[k].service.id != id
    ensures TableOk(services) && Sound(services, ips, servers) && services - {id} == table - {id}
  {
    UpdateOutdates(table, services, ips, servers, id);
    RowChanged(table, services, ips, servers, id);
  }

  /** A row whose target and flag stay may be replaced under its listeners. */
  lemma RowRefreshed(table: Table, id: string, c: Changes, ips: set<string>, servers: map<string, Server>)
    requires TableOk(table) && id in table && !Retargets(table[id], c) && Sound(table, ips, servers)
    ensures var services := table[id := Apply(table[id], c)];
            && TableOk(services) && Sound(services, ips, servers)
            && (Complete(services, ips, servers) <==> Complete(table, ips, servers))
  {
    var row := Apply(table[id], c);
    var services := table[id := row];
    assert services - {id} == table - {id} && services.Keys == table.Keys;
    UpdateOutdates(table, services, ips, servers, id);
    forall k | k in servers ensures Registered(services, ips, k, servers[k]) {
      assert Registered(table, ips, k, servers[k]);
    }
    ExpectedOfOneMore(table, ips, id);
    ExpectedOfOneMore(services, ips, id);
    assert KeysOf(table[id], ips) == KeysOf(row, ips);
  }

  predicate Allocatable(services: Table, bindable: nat -> bool, p: nat) {
    bindable(p) && forall id :: id in services ==> services[id].tunnelPort != p
  }

  lemma PortsApart(services: Table, id: string, row: Service, bindable: nat -> bool)
    requires DistinctPorts(services) && Allocatable(services, bindable, row.tunnelPort)
    ensures DistinctPorts(services[id := row])
  {
  }

  /** No update moves a service to another port. */
  lemma PortsKept(services: Table, id: string, changes: Changes)
    ensures id in services && DistinctPorts(services) ==> DistinctPorts(services[id := Apply(services[id], changes)])
  {
  }

  lemma PortsLeft(services: Table, id: string)
    ensures DistinctPorts(services) ==> DistinctPorts(services - {id})
  {
  }

  lemma StartedNowhere(servers: map<string, Server>, service: Service, binds: string -> bool)
    ensures StartedOn(servers, servers, service, {}, binds)
  {
  }

  lemma StartedOnOneMore(before: map<string, Server>, mid: map<string, Server>, after: map<string, Server>,
                         service: Service, done: set<string>, ip: string, binds: string -> bool)
    requires StartedOn(before, mid, service, done, binds)
    requires var addr := Addr(ip, service.tunnelPort);
             after == if binds(addr) then mid[Key(service.id, addr) := Server(addr, service)] else mid
    ensures StartedOn(before, after, service, done + {ip}, binds)
  {
    var addr := Addr(ip, service.tunnelPort);
    var keys, keys' := BoundKeys(service, done, binds), BoundKeys(service, done + {ip}, binds);
    assert keys' == keys + if binds(addr) then {Key(service.id, addr)} else {};
  }

  /** The listeners of a row that is new are those it was started with. */
  lemma OnlyTheRow(table: Table, before: map<string, Server>, after: map<string, Server>, row: Service,
                   ips: set<string>, binds: string -> bool)
    requires Sound(table, ips, before) && row.id !in table && StartedOn(before, after, row, ips, binds)
    ensures forall k :: k in after && after[k].service.id == row.id ==> after[k].service == row
  {
    hide HostOf;
    forall k | k in after && after[k].service.id == row.id ensures after[k].service == row {
      assert k in before ==> Registered(table, ips, k, before[k]);
    }
  }

  // ---------------------------------------------------------- the provider

  class ProxyProvider {
    var services: Table
    var interfaces: map<string, string>
    var servers: map<string, Server>
    var started: bool
    var firstPort: nat
    var lastPort: nat
    const edgeId: string

    /** The listeners agree with the table and the interfaces. */
    ghost predicate Consistent()
      reads this
    {
      && TableOk(services) && InterfacesOk(interfaces)
      && Sound(services, interfaces.Values, servers) && (!started ==> servers == map[])
    }

    /** While started, nothing is missing. */
    ghost predicate Full()
      reads this
    {
      started ==> Complete(services, interfaces.Values, servers)
    }

    constructor (edgeId: string, firstPort: nat, lastPort: nat)
      ensures Consistent() && Full() && services == map[] && interfaces == map[] && !started
    {
      this.edgeId := edgeId;
      services, interfaces, servers, started := map[], map[], map[], false;
      this.firstPort, this.lastPort := firstPort, lastPort;
    }

    /** allocatePort: the least port of the range that no service has and that can
        be bound; none if there is no such port. */
    method AllocatePort(bindable: nat -> bool) returns (port: Option<nat>)
      ensures port.Some? ==>
                firstPort <= port.value <= lastPort && Allocatable(services, bindable, port.value)
                && forall p: nat :: firstPort <= p < port.value ==> !Allocatable(services, bindable, p)
      ensures port.Some? ==>
                bindable(port.value) && forall id :: id in services ==> services[id].tunnelPort != port.value
      ensures port.None? ==> forall p: nat :: firstPort <= p <= lastPort ==> !Allocatable(services, bindable, p)
    {
      var used: set<nat> := set id | id in services :: services[id].tunnelPort;
      var p := firstPort;
      while p <= lastPort
        invariant firstPort <= p && (p <= lastPort + 1 || p == firstPort)
        invariant forall q: nat :: firstPort <= q < p ==> !Allocatable(services, bindable, q)
      {
        if p !in used && bindable(p) {
          return Some(p);
        }
        p := p + 1;
      }
      return None;
    }

    /** startReverseProxyService: one listener, if its address can be bound. */
    method StartListener(service: Service, addr: string, binds: string -> bool) returns (ok: bool)
      modifies `servers
      ensures ok == binds(addr)
      ensures servers == if ok then old(servers)[Key(service.id, addr) := Server(addr, service)] else old(servers)
    {
      if !binds(addr) { return false; }
      servers := servers[Key(service.id, addr) := Server(addr, service)];
      return true;
    }

    ghost predicate MayStart(service: Service)
      reads this
    {
      && Sound(services, interfaces.Values, servers) && InterfacesOk(interfaces)
      && IsEnabledRow(services, service)
    }

    /** startService: a listener on every interface. */
    method StartService(service: Service, binds: string -> bool) returns (ok: bool)
      modifies `servers
      ensures ok <==> forall ip :: ip in interfaces.Values ==> binds(Addr(ip, service.tunnelPort))
      ensures StartedOn(old(servers), servers, service, interfaces.Values, binds)
      ensures old(MayStart(service)) ==> Sound(services, interfaces.Values, servers)
    {
      hide Sound;
      hide StartedOn;
      ok := true;
      var left := interfaces.Keys;
      ghost var done: set<string> := {};
      ghost var sound := MayStart(service);
      StartedNowhere(servers, service, binds);
      while left != {}
        invariant left <= interfaces.Keys && done <= interfaces.Values
        invariant forall n :: n in interfaces ==> n in left || interfaces[n] in done
        invariant ok <==> forall ip :: ip in done ==> binds(Addr(ip, service.tunnelPort))
        invariant StartedOn(old(servers), servers, service, done, binds)
        invariant sound ==> Sound(services, interfaces.Values, servers)
        decreases left
      {
        var name :| name in left;
        var ip := interfaces[name];
        left := left - {name};
        ghost var before := servers;
        var bound := StartListener(service, Addr(ip, service.tunnelPort), binds);
        ok := ok && bound;
        StartedOnOneMore(old(servers), before, servers, service, done, ip, binds);
        if sound { AddListener(services, interfaces.Values, before, service, ip); }
        done := done + {ip};
      }
      assert done == interfaces.Values;
    }

    /** stopService: every listener whose key starts with the id. */
    method StopService(id: string)
      modifies `servers
      ensures servers == Without(old(servers), id)
    {
      var keys: set<string> := {};
      var left := servers.Keys;
      while left != {}
        invariant left <= servers.Keys
        invariant keys == set k | k in servers && k !in left && HasPrefix(k, id + "-")
        decreases left
      {
        var key :| key in left;
        left := left - {key};
        if HasPrefix(key, id + "-") {
          keys := keys + {key};
        }
      }
      servers := servers - keys;
    }

    /** isServiceRunning. */
    method IsServiceRunning(id: string) returns (running: bool)
      ensures running <==> exists k :: k in servers && HasPrefix(k, id + "-")
    {
      var left := servers.Keys;
      while left != {}
        invariant left <= servers.Keys
        invariant forall k :: k in servers && k !in left ==> !HasPrefix(k, id + "-")
        decreases left
      {
        var key :| key in left;
        left := left - {key};
        if HasPrefix(key, id + "-") { return true; }
      }
      return false;
    }

    // ------------------------------------------------------- service by service

    /** repo.UpdateService: an unknown id matches no row, which is no error. */
    method UpdateRow(id: string, changes: Changes) returns (ok: bool)
      modifies `services
      ensures ok <==> Accepts(changes)
      ensures services == if ok && id in old(services) then old(services)[id := Apply(old(services)[id], changes)]
                          else old(services)
    {
      if !Accepts(changes) { return false; }
      if id in services {
        services := services[id := Apply(services[id], changes)];
      }
      return true;
    }

    /** Start: every enabled service of the table, on every interface. */
    method Start(binds: string -> bool) returns (ok: bool)
      modifies this
      ensures ok == !old(started) && started
      ensures services == old(services) && interfaces == old(interfaces)
      ensures if ok then ListensWhereBound(services, interfaces.Values, servers, binds) else servers == old(servers)
      ensures old(Consistent()) ==> Consistent()
      ensures old(Consistent()) && ok && AllBind(binds) ==> Full()
    {
      if started { return false; }
      hide StartedOn;
      hide BoundKeys;
      started := true;
      var left := services.Keys;
      ghost var done: Table := map[];
      while left != {}
        invariant left <= services.Keys && started
        invariant services == old(services) && interfaces == old(interfaces)
        invariant done == services - left && ListensWhereBound(done, interfaces.Values, servers, binds)
        invariant old(Consistent()) ==> Sound(services, interfaces.Values, servers)
        invariant old(Consistent()) && AllBind(binds) ==> Complete(done, interfaces.Values, servers)
        decreases left
      {
        var id :| id in left;
        left := left - {id};
        ghost var before := servers;
        if services[id].enabled {
          var bound := StartService(services[id], binds);
          StartedKeys(before, servers, services[id], interfaces.Values, binds);
        }
        assert services - left - {id} == done;
        ListensOneMore(services - left, interfaces.Values, before, servers, id, binds);
        if old(Consistent()) && AllBind(binds) {
          CompleteOneMore(services - left, interfaces.Values, before, servers, id, binds);
        }
        done := services - left;
      }
      assert done == services;
      return true;
    }

    /** repo.AddService: the row, unless an input is refused or the id exists. */
    method CreateRow(newId: string, name: string, localHost: string, localPort: int, tunnelPort: nat,
                     protocol: string, requiredAuth: bool, path: Option<string>)
      returns (service: Option<Service>)
      modifies `services
      ensures service.Some? <==>
                && protocol in ["http", "https", "ws", "wss"] && 1 <= localPort <= 65535
                && localHost != "" && name != "" && newId !in old(services)
      ensures service.Some? ==>
                && service.value.id == newId && service.value.name == name
                && service.value.localHost == localHost && service.value.localPort == localPort
                && service.value.tunnelPort == tunnelPort && service.value.path == path
                && service.value.protocol == protocol && service.value.requiredAuth == requiredAuth
                && service.value.enabled
      ensures services == if service.Some? then old(services)[newId := service.value] else old(services)
    {
      if !IsProtocol(protocol) { return None; }
      if localPort < 1 || localPort > 65535 { return None; }
      if localHost == "" { return None; }
      if name == "" { return None; }
      var row := Service(newId, name, tunnelPort, localHost, localPort, path, protocol, requiredAuth, true);
      if newId in services { return None; }
      services := services[newId := row];
      return Some(row);
    }

    /** AddService: a row under the least port that can be allocated, and its listeners. */
    method AddService(newId: string, name: string, localHost: string, localPort: int, protocol: string,
                      requiredAuth: bool, path: Option<string>, bindable: nat -> bool, binds: string -> bool)
      returns (service: Option<Service>, ok: bool)
      modifies `services, `servers
      ensures service.Some? <==>
                && protocol in ["http", "https", "ws", "wss"] && 1 <= localPort <= 65535
                && localHost != "" && name != "" && newId !in old(services)
                && exists p: nat :: firstPort <= p <= lastPort && Allocatable(old(services), bindable, p)
      ensures ok ==> service.Some?
      ensures service.None? ==> services == old(services) && servers == old(servers)
      ensures service.Some? ==>
                && service.value.id == newId && service.value.name == name
                && service.value.localHost == localHost && service.value.localPort == localPort
                && service.value.path == path && service.value.protocol == protocol
                && service.value.requiredAuth == requiredAuth && service.value.enabled
                && services == old(services)[newId := service.value]
      ensures service.Some? ==>
                firstPort <= service.value.tunnelPort <= lastPort
                && Allocatable(old(services), bindable, service.value.tunnelPort)
                && forall p: nat :: firstPort <= p < service.value.tunnelPort ==>
                     !Allocatable(old(services), bindable, p)
      ensures service.Some? && !started ==> ok && servers == old(servers)
      ensures service.Some? && started ==>
                && StartedOn(old(servers), servers, service.value, interfaces.Values, binds)
                && (ok <==> forall ip :: ip in interfaces.Values ==> binds(Addr(ip, service.value.tunnelPort)))
      ensures old(Consistent()) && service.Some? ==>
                forall k :: k in servers && servers[k].service.id == newId ==> servers[k].service == service.value
      ensures old(Consistent()) && IdsApart(old(services).Keys + {newId}) ==> Consistent()
      ensures old(Consistent() && Full()) && IdsApart(old(services).Keys + {newId}) && AllBind(binds) ==> Full()
    {
      hide Sound;
      hide DistinctPorts;
      hide IdsApart;
      hide StartedOn;
      hide AllBind;
      hide Complete;
      hide InterfacesOk;
      var port := AllocatePort(bindable);
      if port.None? { return None, false; }
      service := CreateRow(newId, name, localHost, localPort, port.value, protocol, requiredAuth, path);
      if service.None? { return None, false; }
      if old(Consistent()) && IdsApart(old(services).Keys + {newId}) {
        RowAdded(old(services), service.value, interfaces.Values, servers);
      }
      hide Allocatable;
      hide TableOk;
      ok := StartIfEnabled(newId, binds);
      if old(Consistent()) && started {
        OnlyTheRow(old(services), old(servers), servers, service.value, interfaces.Values, binds);
      }
    }

    /** Consistent, except that the listeners of one service may be out of date. */
    ghost predicate ConsistentBut(id: string)
      reads this
    {
      && TableOk(services) && InterfacesOk(interfaces) && IdsApart(services.Keys + {id})
      && SoundBut(services, interfaces.Values, servers, id) && (!started ==> servers == map[])
    }

    ghost predicate FullBut(id: string)
      reads this
    {
      started ==> Complete(services - {id}, interfaces.Values, servers)
    }

    /** stopService, as the operations use it. */
    method Stop(id: string)
      modifies `servers
      ensures servers == Without(old(servers), id)
      ensures old(ConsistentBut(id)) ==> Consistent() && forall k :: k in servers ==> servers[k].service.id != id
      ensures old(ConsistentBut(id) && FullBut(id)) ==> FullBut(id)
    {
      if ConsistentBut(id) {
        StopIsExact(services, interfaces.Values, servers, id);
        if started && FullBut(id) {
          StopLeavesOthers(services, interfaces.Values, servers, id);
        }
      }
      StopService(id);
    }

    /** stopService before the row changes or goes. */
    method StopRow(id: string)
      requires id in services
      modifies `servers
      ensures servers == Without(old(servers), id)
      ensures old(Consistent()) ==> Consistent() && forall k :: k in servers ==> servers[k].service.id != id
      ensures old(Consistent() && Full()) ==> FullBut(id)
    {
      hide Sound;
      hide SoundBut;
      hide TableOk;
      hide InterfacesOk;
      hide Complete;
      hide Without;
      hide IdsApart;
      if Consistent() { RowOutdates(services, interfaces.Values, servers, id); }
      Stop(id);
    }

    /** What starting a service does when it runs, is enabled and the proxy is up. */
    method StartIfEnabled(id: string, binds: string -> bool) returns (ok: bool)
      requires id in services
      modifies `servers
      ensures old(Consistent()) ==> Consistent()
      ensures old(Consistent() && FullBut(id)) && AllBind(binds) ==> Full() && ok
      ensures services[id].enabled && started ==>
                && StartedOn(old(servers), servers, services[id], interfaces.Values, binds)
                && (ok <==> forall ip :: ip in interfaces.Values ==> binds(Addr(ip, services[id].tunnelPort)))
      ensures !(services[id].enabled && started) ==> ok && servers == old(servers)
    {
      ok := true;
      ghost var before := servers;
      if services[id].enabled && started {
        ok := StartService(services[id], binds);
      }
      if old(Consistent() && FullBut(id)) && AllBind(binds) && started {
        CompleteOneMore(services, interfaces.Values, before, servers, id, binds);
      }
    }

    /** restartService. */
    method RestartService(id: string, binds: string -> bool)
      modifies `servers
      ensures if id in services && services[id].enabled && started
              then StartedOn(Without(old(servers), id), servers, services[id], interfaces.Values, binds)
              else servers == Without(old(servers), id)
      ensures old(ConsistentBut(id)) ==> Consistent()
      ensures old(ConsistentBut(id) && FullBut(id)) && AllBind(binds) ==> Full()
    {
      Stop(id);
      if id !in services {
        assert services - {id} == services;
        return;
      }
      var _ := StartIfEnabled(id, binds);
    }

    /** ModifyService, also behind EnableService and DisableService. */
    method ModifyService(id: string, changes: Changes, binds: string -> bool) returns (ok: bool)
      modifies `services, `servers
      ensures ok <==> Accepts(changes)
      ensures services == if ok && id in old(services) then old(services)[id := Apply(old(services)[id], changes)]
                          else old(services)
      ensures if !ok then servers == old(servers)
              else if id in services && services[id].enabled && started
              then StartedOn(Without(old(servers), id), servers, services[id], interfaces.Values, binds)
              else servers == Without(old(servers), id)
      ensures old(Consistent()) && IdsApart(old(services).Keys + {id}) ==> Consistent()
      ensures old(Consistent() && Full()) && IdsApart(old(services).Keys + {id}) && AllBind(binds) ==> Full()
    {
      hide Accepts;
      hide Sound;
      hide SoundBut;
      hide InterfacesOk;
      hide Complete;
      hide IdsApart;
      ok := UpdateRow(id, changes);
      if !ok { return; }
      if old(Consistent()) {
        UpdateOutdates(old(services), services, interfaces.Values, servers, id);
      }
      RestartService(id, binds);
    }

    method DeleteService(id: string) returns (ok: bool)
      modifies `services, `servers
      ensures ok <==> id != edgeId && id in old(services)
      ensures services == if ok then old(services) - {id} else old(services)
      ensures !ok ==> servers == old(servers)
      ensures old(Consistent()) ==> Consistent()
      ensures old(Consistent() && Full()) ==> Full()
    {
      if id == edgeId || id !in services { return false; }
      hide Sound;
      hide TableOk;
      hide InterfacesOk;
      hide Complete;
      hide Without;
      StopRow(id);
      if old(Consistent()) {
        RowDropped(services, interfaces.Values, servers, id);
      }
      services := services - {id};
      return true;
    }

    /** The part of handleUpdateService that stops, updates and starts. */
    method UpdateInPlace(id: string, changes: Changes, binds: string -> bool) returns (ok: bool)
      requires id in services
      modifies `services, `servers
      ensures services == if Accepts(changes) then old(services)[id := Apply(old(services)[id], changes)]
                          else old(services)
      ensures ok <==>
                && Accepts(changes)
                && (Retargets(old(services)[id], changes) && services[id].enabled && started ==>
                      forall ip :: ip in interfaces.Values ==> binds(Addr(ip, services[id].tunnelPort)))
      ensures old(Consistent()) ==> Consistent()
      ensures old(Consistent() && Full()) && AllBind(binds) && Accepts(changes) ==> Full() && ok
      ensures old(Consistent()) ==>
                AfterUpdate(old(servers), servers, id, services[id],
                            Retargets(old(services)[id], changes) && Accepts(changes),
                            Retargets(old(services)[id], changes), started, interfaces.Values, binds)
    {
      hide Without;
      hide HasPrefix;
      hide Sound;
      hide SoundBut;
      hide TableOk;
      hide InterfacesOk;
      hide Complete;
      var existing := services[id];
      var hostOrPortChanged := (changes.localHost.Some? && changes.localHost.value != existing.localHost)
                               || (changes.localPort.Some? && changes.localPort.value != existing.localPort);
      var enabledChanged := changes.enabled.Some? && changes.enabled.value != existing.enabled;

      var wasRunning := IsServiceRunning(id);
      var needsRestart := hostOrPortChanged || enabledChanged;
      RestartNeeded(existing, changes);
      hide Apply;
      hide Retargets;
      hide Accepts;
      ghost var table := services;
      if old(Consistent()) { RowOutdates(services, interfaces.Values, servers, id); }
      if wasRunning && needsRestart {
        StopRow(id);
      } else if old(Consistent()) && needsRestart {
        NoPrefixNoListener(table, interfaces.Values, servers, id);
      }

      ok := UpdateRow(id, changes);
      if !ok { return false; }
      if old(Consistent()) {
        if needsRestart {
          RowReplaced(table, services, interfaces.Values, servers, id);
        } else {
          RowRefreshed(table, id, changes, interfaces.Values, servers);
        }
      }
      if needsRestart {
        ok := StartIfEnabled(id, binds);
      }
    }

    /** handleUpdateService: a running service is stopped before its target or its
        enabled flag changes, and started again afterwards. */
    method HandleUpdate(id: string, changes: Changes, binds: string -> bool) returns (status: Status)
      modifies `services, `servers
      ensures status.BadRequest? <==> id == "" || changes.name == Some("") || changes.localHost == Some("")
      ensures status.NotFound? <==> !status.BadRequest? && id !in old(services)
      ensures status.BadRequest? || status.NotFound? ==> services == old(services) && servers == old(servers)
      ensures old(Consistent()) ==> Consistent()
      ensures old(Consistent() && Full()) && AllBind(binds) && (status.Failed? ==> Accepts(changes)) ==>
                Full() && !status.Failed?
      ensures status.Ok? || status.Failed? ==>
                services == if Accepts(changes) then old(services)[id := Apply(old(services)[id], changes)]
                            else old(services)
      ensures status.Ok? || status.Failed? ==>
                (status.Ok? <==>
                  && Accepts(changes)
                  && (Retargets(old(services)[id], changes) && services[id].enabled && started ==>
                        forall ip :: ip in interfaces.Values ==> binds(Addr(ip, services[id].tunnelPort))))
      ensures old(Consistent()) && (status.Ok? || status.Failed?) ==>
                AfterUpdate(old(servers), servers, id, services[id],
                            Retargets(old(services)[id], changes) && Accepts(changes),
                            Retargets(old(services)[id], changes), started, interfaces.Values, binds)
    {
      if id == "" || changes.name == Some("") || changes.localHost == Some("") { return BadRequest; }
      if id !in services { return NotFound; }
      var ok := UpdateInPlace(id, changes, binds);
      return if ok then Ok else Failed;
    }

    /** startServicesOnInterface: the enabled services get a listener on ip. */
    method StartOnInterface(ip: string, binds: string -> bool)
      modifies `servers
      ensures if started then ListensWhereBound(services, {ip}, servers, binds) else servers == old(servers)
      ensures old(servers).Keys <= servers.Keys
      ensures old(CanGrow(ip)) ==> Sound(services, interfaces.Values, servers)
      ensures old(CanGrow(ip) && Complete(services, interfaces.Values - {ip}, servers)) && AllBind(binds) && started ==>
                Complete(services, interfaces.Values, servers)
    {
      if !started { return; }
      hide Sound;
      hide HostOf;
      hide Key;
      hide Addr;
      hide AllBind;
      hide TableOk;
      hide PlainIP;
      hide Complete;
      hide ListensWhereBound;
      NoRowsYet({ip}, servers, binds);
      ghost var ips := interfaces.Values - {ip};
      ghost var sound := CanGrow(ip);
      ghost var full := sound && Complete(services, ips, servers) && AllBind(binds);
      var left := services.Keys;
      ghost var done: Table := map[];
      while left != {}
        invariant left <= services.Keys && done == services - left
        invariant old(servers).Keys <= servers.Keys && ListensWhereBound(done, {ip}, servers, binds)
        invariant sound ==> Sound(services, interfaces.Values, servers)
        invariant full ==> Complete(services, ips, servers) && Complete(done, {ip}, servers)
        decreases left
      {
        var id :| id in left;
        left := left - {id};
        ghost var before := servers;
        if services[id].enabled {
          var bound := StartListener(services[id], Addr(ip, services[id].tunnelPort), binds);
        }
        assert services - left - {id} == done;
        StepOnInterface(services, interfaces.Values, ips, left, id, ip, before, servers, sound, full, binds);
        done := services - left;
      }
      assert done == services;
      if full {
        assert interfaces.Values == ips + {ip};
        CompleteOnBoth(services, ips, ip, servers);
      }
    }

    ghost predicate CanGrow(ip: string)
      reads this
    {
      TableOk(services) && PlainIP(ip) && ip in interfaces.Values && Sound(services, interfaces.Values, servers)
    }

    /** AddInterface. */
    method AddInterface(name: string, ip: string, binds: string -> bool)
      modifies `interfaces, `servers
      ensures interfaces == old(interfaces)[name := ip]
      ensures if started then ListensWhereBound(services, {ip}, servers, binds) else servers == old(servers)
      ensures old(servers).Keys <= servers.Keys
      ensures old(Consistent()) && IsNewInterface(old(interfaces), name, ip) ==> Consistent()
      ensures old(Consistent() && Full()) && IsNewInterface(old(interfaces), name, ip) && AllBind(binds) ==> Full()
    {
      hide Sound;
      hide TableOk;
      hide InterfacesOk;
      hide Complete;
      if Consistent() && IsNewInterface(interfaces, name, ip) {
        InterfaceAdded(interfaces, name, ip);
        SoundOnMore(services, interfaces.Values, servers, ip);
        assert interfaces.Values + {ip} - {ip} == interfaces.Values;
      }
      interfaces := interfaces[name := ip];
      StartOnInterface(ip, binds);
    }

    /** stopServicesOnInterface: every listener on that address. */
    method StopOnInterface(ip: string)
      modifies `servers
      ensures servers == OffInterface(old(servers), ip)
    {
      hide HostOf;
      var keys: set<string> := {};
      var left := servers.Keys;
      while left != {}
        invariant left <= servers.Keys
        invariant keys == set k | k in servers && k !in left && HostOf(servers[k].addr) == Some(ip)
        decreases left
      {
        var key :| key in left;
        left := left - {key};
        if HostOf(servers[key].addr) == Some(ip) {
          keys := keys + {key};
        }
      }
      servers := servers - keys;
    }

    /** RemoveInterface. */
    method RemoveInterface(name: string)
      modifies `interfaces, `servers
      ensures interfaces == old(interfaces) - {name}
      ensures servers == if name in old(interfaces) then OffInterface(old(servers), old(interfaces)[name])
                         else old(servers)
      ensures old(Consistent()) ==> Consistent()
      ensures old(Consistent() && Full()) ==> Full()
    {
      hide Sound;
      hide TableOk;
      hide Complete;
      if name !in interfaces {
        assert interfaces - {name} == interfaces;
        return;
      }
      var ip := interfaces[name];
      if Consistent() {
        InterfaceRemoved(interfaces, name);
        StopsOnInterface(services, interfaces.Values, servers, ip);
      }
      interfaces := interfaces - {name};
      StopOnInterface(ip);
      assert old(servers) == map[] ==> servers == map[];
    }

    /** Whether an operation meets the assumptions: new ids and interfaces are new,
        and no id continues another one after a '-'. */
    ghost predicate Fits(op: Operation)
      reads this
    {
      IdsApart(services.Keys + IdsOf([op])) && Fresh(interfaces, [op])
    }

    method Perform(op: Operation, binds: string -> bool)
      modifies `services, `interfaces, `servers
      ensures old(Consistent() && Fits(op)) ==> Consistent()
      ensures old(DistinctPorts(services)) ==> DistinctPorts(services)
      ensures services.Keys <= old(services).Keys + IdsOf([op]) && interfaces == InterfaceAfter(old(interfaces), op)
      ensures old(Consistent() && Full() && Fits(op)) && Completes(op) && AllBind(binds) ==> Full()
    {
      hide Sound;
      hide TableOk;
      hide InterfacesOk;
      hide Complete;
      hide DistinctPorts;
      IdsOfOne(op);
      ghost var before := services;
      match op
      case Add(id, name, host, port, protocol, auth, path, bindable) =>
        var added, _ := AddService(id, name, host, port, protocol, auth, path, bindable, binds);
        if added.Some? && DistinctPorts(before) { PortsApart(before, id, added.value, bindable); }
      case Modify(id, changes) =>
        var _ := ModifyService(id, changes, binds);
        PortsKept(before, id, changes);
      case Update(id, changes) =>
        var _ := HandleUpdate(id, changes, binds);
        PortsKept(before, id, changes);
      case Delete(id) =>
        var _ := DeleteService(id);
        PortsLeft(before, id);
      case InterfaceUp(name, ip) =>
        AddInterface(name, ip, binds);
      case InterfaceDown(name) =>
        RemoveInterface(name);
    }

    /** Over any sequence of operations, tunnel ports stay distinct. If new ids and
        interfaces are new, every listener stays a faithful entry of the index; and as
        long as all addresses bind and no update is rejected halfway, the listeners
        are exactly the enabled services times the interfaces. */
    method Serve(ops: seq<Operation>, binds: nat -> string -> bool)
      requires Consistent() && Full()
      modifies `services, `interfaces, `servers
      ensures DistinctPorts(services) && interfaces == InterfacesAfter(old(interfaces), ops)
      ensures old(AllFit(ops)) ==> Consistent() && servers.Keys <= Expected(services, interfaces.Values)
      ensures old(AllFit(ops)) && AllComplete(ops) && (forall k :: AllBind(binds(k))) && started ==>
                servers.Keys == Expected(services, interfaces.Values)
    {
      hide Sound;
      hide InterfacesOk;
      hide DistinctPorts;
      hide IdsApart;
      PortsOfTable(services);
      ghost var ids := services.Keys + IdsOf(ops);
      ghost var fits := AllFit(ops);
      ghost var full := fits && AllComplete(ops) && (forall k :: AllBind(binds(k)));
      for k := 0 to |ops|
        invariant DistinctPorts(services) && services.Keys <= ids && started == old(started)
        invariant InterfacesAfter(interfaces, ops[k..]) == InterfacesAfter(old(interfaces), ops)
        invariant fits ==> Consistent() && Fresh(interfaces, ops[k..])
        invariant full ==> Full()
      {
        assert ops[k..][1..] == ops[k + 1..];
        if fits {
          FitsHere(services.Keys, ops, k, ids);
          FreshHere(interfaces, ops[k..]);
        }
        Perform(ops[k], binds(k));
      }
      if fits { SoundIsExpected(services, interfaces.Values, servers); }
    }

    /** Ids are apart, and interfaces are new when they are added. */
    ghost predicate AllFit(ops: seq<Operation>)
      reads this
    {
      IdsApart(services.Keys + IdsOf(ops)) && Fresh(interfaces, ops)
    }
  }
}
