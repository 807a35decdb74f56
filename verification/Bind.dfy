/** Which infra node masters each zone, and where the other one forwards it. */
module Bind {
  import opened Wrappers
  import opened Dns

  datatype Stanza = Master(zone: string) | Forward(zone: string, peer: string)

  datatype Rendered = Rendered(
    clientHost: string, serviceHost: string, clientNs: string, serviceNs: string,
    client: set<Record>, service: set<Record>, reverse: map<string, set<Record>>,
    clientLocal: seq<Stanza>, serviceLocal: seq<Stanza>)

  /** `service` only when the node says so. */
  predicate IsService(n: Node) { n.org == Some("service") }

  ghost predicate OnlyInfra(net: Net, host: string, service: bool) {
    && host in net.nodes && IsService(net.nodes[host]) == service
    && exists k :: 0 <= k < |net.infra| && net.infra[k] == host
         && forall j :: 0 <= j < |net.infra| && net.infra[j] in net.nodes && IsService(net.nodes[net.infra[j]]) == service ==> j == k
  }

  /** Picks the infra node of each org, or says which is undefined, doubled or missing. */
  method InfraByOrg(net: Net) returns (r: Result<(string, string), DnsError>)
    ensures r.Ok? ==> OnlyInfra(net, r.value.0, false) && OnlyInfra(net, r.value.1, true)
    ensures r.Ok? <==> (forall h :: h in net.infra ==> h in net.nodes)
                       && (exists c :: OnlyInfra(net, c, false)) && exists s :: OnlyInfra(net, s, true)
  {
    var client: Option<nat>, service: Option<nat> := None, None;
    for i := 0 to |net.infra|
      invariant forall j :: 0 <= j < i ==> net.infra[j] in net.nodes
      invariant client.Some? ==> client.value < i && !IsService(net.nodes[net.infra[client.value]])
      invariant service.Some? ==> service.value < i && IsService(net.nodes[net.infra[service.value]])
      invariant forall j :: 0 <= j < i ==> (if IsService(net.nodes[net.infra[j]]) then service else client) == Some(j)
    {
      var name := net.infra[i];
      if name !in net.nodes {
        return Err(UndefinedInfra(name));
      }
      if IsService(net.nodes[name]) {
        if service.Some? {
          forall s ensures !OnlyInfra(net, s, true) {
            TwoOfOne(net, s, true, service.value, i);
          }
          return Err(TwoInfra("service"));
        }
        service := Some(i);
      } else {
        if client.Some? {
          forall c ensures !OnlyInfra(net, c, false) {
            TwoOfOne(net, c, false, client.value, i);
          }
          return Err(TwoInfra("client"));
        }
        client := Some(i);
      }
    }
    if client == None {
      return Err(NoInfra("client"));
    }
    if service == None {
      return Err(NoInfra("service"));
    }
    assert OnlyInfra(net, net.infra[client.value], false) && OnlyInfra(net, net.infra[service.value], true);
    return Ok((net.infra[client.value], net.infra[service.value]));
  }

  lemma {:induction false} TwoOfOne(net: Net, host: string, service: bool, i: nat, j: nat)
    requires i < j < |net.infra| && net.infra[i] in net.nodes && net.infra[j] in net.nodes
    requires IsService(net.nodes[net.infra[i]]) == service && IsService(net.nodes[net.infra[j]]) == service
    ensures !OnlyInfra(net, host, service)
  {
  }

  function NsFqdn(host: string, n: Node): Option<string> {
    if ZoneOf(n).None? || PrimaryPlane(n.nics).None? then None
    else Some(PlaneName(host, PrimaryPlane(n.nics).value, ZoneOf(n).value))
  }

  /** The name server of a zone is an address owner of its own zone. */
  lemma {:induction false} NsResolves(net: Net, host: string, zone: string)
    requires host in net.nodes && NsFqdn(host, net.nodes[host]).Some? && ZoneOf(net.nodes[host]) == Some(zone)
    ensures exists ip :: HasA(net, zone, NsFqdn(host, net.nodes[host]).value, ip)
  {
    var plane := PrimaryPlane(net.nodes[host].nics).value;
    var name, ip := PlaneName(host, plane, zone), net.nodes[host].nics[plane];
    assert IsNic(net, zone, host, plane, name, ip);
    assert HasA(net, zone, name, ip);
  }

  /** A zone's name server is the name its host's own alias points at. */
  lemma {:induction false} NsIsAlias(net: Net, host: string, zone: string)
    requires host in net.nodes && NsFqdn(host, net.nodes[host]).Some? && ZoneOf(net.nodes[host]) == Some(zone)
    ensures Alias(net, zone, host + "." + zone, NsFqdn(host, net.nodes[host]).value)
  {
    hide Alias, PlaneName, PrimaryPlane, ZoneOf;
    var name, target := Fqdn(host, zone), NsFqdn(host, net.nodes[host]).value;
    assert IsAlias(net, zone, host, name, target);
    assert HasCname(net, zone, name, target);
    AliasIff(net, zone, name, target);
    assert name == host + "." + zone;
  }

  // ----- authority ----------------------------------------------------------------------

  function Zones(r: Rendered): set<string> { {CLIENT, SERVICE} + r.reverse.Keys }

  ghost predicate Once(
      xs: seq<Stanza>, x: Stanza) { exists i :: 0 <= i < |xs| && xs[i] == x && forall j :: 0 <= j < |xs| && xs[j] == x ==> j == i }

  /** One node masters the zone, and only masters it; the other only forwards it there. */
  ghost predicate Served(zone: string, owner: seq<Stanza>, other: seq<Stanza>, ownerIp: string) {
    && Once(owner, Master(zone)) && Once(other, Forward(zone, ownerIp))
    && (forall x :: x in owner && x.zone == zone ==> x == Master(zone))
    && (forall x :: x in other && x.zone == zone ==> x == Forward(zone, ownerIp))
  }

  ghost predicate Authority(net: Net, r: Rendered) {
    && r.clientHost in net.nodes && r.serviceHost in net.nodes && r.clientHost != r.serviceHost
    && "net-ext" in net.nodes[r.clientHost].nics && "net-ext" in net.nodes[r.serviceHost].nics
    && (forall z :: z in Zones(r) && z != SERVICE ==> Served(z, r.clientLocal, r.serviceLocal, net.nodes[r.clientHost].nics["net-ext"]))
    && Served(SERVICE, r.serviceLocal, r.clientLocal, net.nodes[r.serviceHost].nics["net-ext"])
    && (forall x :: x in r.clientLocal || x in r.serviceLocal ==> x.zone in Zones(r))
  }

  /** No zone is forwarded in a cycle: whoever a node forwards a zone to masters it, and does
      not forward it. */
  ghost predicate NoForwardingCycle(net: Net, r: Rendered)
    requires r.clientHost in net.nodes && r.serviceHost in net.nodes
    requires "net-ext" in net.nodes[r.clientHost].nics && "net-ext" in net.nodes[r.serviceHost].nics
  {
    forall zone, peer, other ::
      && (Forward(zone, peer) in r.clientLocal ==>
            peer == net.nodes[r.serviceHost].nics["net-ext"] && Master(zone) in r.serviceLocal && Forward(zone, other) !in r.serviceLocal)
      && (Forward(zone, peer) in r.serviceLocal ==>
            peer == net.nodes[r.clientHost].nics["net-ext"] && Master(zone) in r.clientLocal && Forward(zone, other) !in r.clientLocal)
  }

  lemma {:induction false} ForwardedToMaster(net: Net, r: Rendered, zone: string, peer: string)
    requires Authority(net, r)
    ensures Forward(zone, peer) in r.clientLocal ==>
              peer == net.nodes[r.serviceHost].nics["net-ext"] && Master(zone) in r.serviceLocal && forall p :: Forward(zone, p) !in r.serviceLocal
    ensures Forward(zone, peer) in r.serviceLocal ==>
              peer == net.nodes[r.clientHost].nics["net-ext"] && Master(zone) in r.clientLocal && forall p :: Forward(zone, p) !in r.clientLocal
  {
    if Forward(zone, peer) in r.clientLocal {
      assert Forward(zone, peer).zone == zone;
      assert zone in Zones(r);
    }
    if Forward(zone, peer) in r.serviceLocal {
      assert Forward(zone, peer).zone == zone;
      assert zone in Zones(r);
    }
  }

  lemma {:induction false} NoCycle(net: Net, r: Rendered)
    requires Authority(net, r)
    ensures NoForwardingCycle(net, r)
  {
    hide Authority;
    forall zone, peer {
      ForwardedToMaster(net, r, zone, peer);
    }
  }

  /** A reverse zone is never a forward one. */
  lemma {:induction false} ReverseIsNotForward(net: Net, zones: map<string, set<Record>>)
    requires ReverseZones(net, zones)
    ensures CLIENT !in zones && SERVICE !in zones
  {
    hide HasA, HasPtr, JoinDots, SplitDots;
    forall rz | rz in zones ensures rz != CLIENT && rz != SERVICE {
      var r :| r in zones[rz];
      assert HasPtr(net, rz, r.name, r.value);
      var ip := AddressOf(net, rz, r.name, r.value);
      EndsInArpa(ip);
    }
  }

  lemma {:induction false} EndsInArpa(ip: string)
    requires Rev(ip).Some?
    ensures |Rev(ip).value.0| >= |ARPA| && Rev(ip).value.0[|Rev(ip).value.0| - 1] == 'a'
  {
    hide JoinDots, SplitDots;
    var o := SplitDots(ip);
    var head := JoinDots([o[2], o[1], o[0]]);
    assert (head + ARPA)[|head + ARPA| - 1] == ARPA[|ARPA| - 1];
  }

  /** The stanzas of the two nodes. */
  method Locals(clientZones: set<string>, clientExt: string, serviceExt: string)
    returns (clientLocal: seq<Stanza>, serviceLocal: seq<Stanza>)
    requires SERVICE !in clientZones
    ensures forall z :: z in clientZones ==> Served(z, clientLocal, serviceLocal, clientExt)
    ensures Served(SERVICE, serviceLocal, clientLocal, serviceExt)
    ensures forall x :: x in clientLocal || x in serviceLocal ==> x.zone in clientZones + {SERVICE}
  {
    clientLocal, serviceLocal := [], [Master(SERVICE)];
    var rest := clientZones;
    while rest != {}
      invariant rest <= clientZones
      invariant forall z :: z in clientZones && z !in rest ==> Served(z, clientLocal, serviceLocal, clientExt)
      invariant forall x :: x in clientLocal ==> x.Master? && x.zone in clientZones && x.zone !in rest
      invariant Once(serviceLocal, Master(SERVICE))
      invariant forall x :: x in serviceLocal ==> x == Master(SERVICE) || (x.Forward? && x.zone in clientZones && x.zone !in rest)
      decreases rest
    {
      var z :| z in rest;
      assert Master(z) !in clientLocal && Forward(z, clientExt) !in serviceLocal;
      AddStanza(clientLocal, Master(z));
      AddStanza(serviceLocal, Forward(z, clientExt));
      clientLocal := clientLocal + [Master(z)];
      serviceLocal := serviceLocal + [Forward(z, clientExt)];
      rest := rest - {z};
    }
    AddStanza(clientLocal, Forward(SERVICE, serviceExt));
    clientLocal := clientLocal + [Forward(SERVICE, serviceExt)];
  }

  lemma {:induction false} AddStanza(xs: seq<Stanza>, x: Stanza)
    requires x !in xs
    ensures Once(xs + [x], x) && forall y :: y != x && Once(xs, y) ==> Once(xs + [x], y)
    ensures forall y :: y in xs + [x] <==> y in xs || y == x
  {
    hide Once;
    AddedOnce(xs, x);
    forall y | y != x && Once(xs, y) ensures Once(xs + [x], y) {
      StillOnce(xs, x, y);
    }
  }

  lemma {:induction false} InPrefix(xs: seq<Stanza>, x: Stanza, j: int)
    requires 0 <= j < |xs|
    ensures (xs + [x])[j] in xs
  {
    assert (xs + [x])[j] == xs[j];
  }

  lemma {:induction false} AddedOnce(xs: seq<Stanza>, x: Stanza)
    requires x !in xs
    ensures Once(xs + [x], x)
  {
    var all := xs + [x];
    assert all[|xs|] == x;
    forall j | 0 <= j < |all| && all[j] == x ensures j == |xs| {
      if j < |xs| {
        InPrefix(xs, x, j);
      }
    }
  }

  lemma {:induction false} StillOnce(xs: seq<Stanza>, x: Stanza, y: Stanza)
    requires y != x && Once(xs, y)
    ensures Once(xs + [x], y)
  {
    var all := xs + [x];
    var i :| 0 <= i < |xs| && xs[i] == y && forall j :: 0 <= j < |xs| && xs[j] == y ==> j == i;
    assert all[i] == y;
    forall j | 0 <= j < |all| && all[j] == y ensures j == i {
      assert j < |xs| ==> xs[j] == y;
    }
  }

  /** What a topology needs to render: one infra node per org with an external address, every
      node in a zone with a primary interface, and only addresses that have a reverse name. */
  ghost predicate Renderable(net: Net) {
    && (forall h :: h in net.infra ==> h in net.nodes)
    && (exists c :: OnlyInfra(net, c, false) && "net-ext" in net.nodes[c].nics)
    && (exists s :: OnlyInfra(net, s, true) && "net-ext" in net.nodes[s].nics)
    && (forall h :: h in net.nodes ==> NodeOk(net.nodes[h]))
    && forall zone, name, ip :: HasA(net, zone, name, ip) ==> Rev(ip).Some?
  }

  lemma {:induction false} OneInfra(net: Net, a: string, b: string, service: bool)
    requires OnlyInfra(net, a, service) && OnlyInfra(net, b, service)
    ensures a == b
  {
    hide IsService;
    var k :| 0 <= k < |net.infra| && net.infra[k] == a;
    var j :| 0 <= j < |net.infra| && net.infra[j] == b;
    assert net.infra[k] in net.nodes && net.infra[j] in net.nodes;
  }

  /** The render steps succeed exactly on such a topology. */
  lemma {:induction false} RenderableIff(net: Net, clientHost: string, serviceHost: string)
    requires OnlyInfra(net, clientHost, false) && OnlyInfra(net, serviceHost, true)
    ensures Renderable(net) <==>
            && (forall h :: h in net.infra ==> h in net.nodes)
            && "net-ext" in net.nodes[clientHost].nics && "net-ext" in net.nodes[serviceHost].nics
            && (forall h :: h in net.nodes ==> NodeOk(net.nodes[h]))
            && forall zone, name, ip :: HasA(net, zone, name, ip) ==> Rev(ip).Some?
  {
    hide HasA, Rev, NodeOk, OnlyInfra;
    forall c | OnlyInfra(net, c, false) ensures c == clientHost {
      OneInfra(net, c, clientHost, false);
    }
    forall s | OnlyInfra(net, s, true) ensures s == serviceHost {
      OneInfra(net, s, serviceHost, true);
    }
  }

  lemma {:induction false} NodeHasNs(net: Net, host: string)
    requires host in net.nodes
    ensures NodeOk(net.nodes[host]) ==> NsFqdn(host, net.nodes[host]).Some?
    ensures NodeOk(net.nodes[host]) ==> ZoneOf(net.nodes[host]).Some?
  {
  }

  /** Everything the bind role copies: zone records, name servers, and each node's stanzas. */
  method Render(net: Net) returns (r: Result<Rendered, DnsError>)
    ensures r.Ok? <==> Renderable(net)
    ensures r.Ok? ==> Authority(net, r.value) && NoForwardingCycle(net, r.value)
    ensures r.Ok? ==> ForwardZone(net, CLIENT, r.value.client) && ForwardZone(net, SERVICE, r.value.service) && ReverseZones(net, r.value.reverse)
    ensures r.Ok? ==> (exists ip :: HasA(net, CLIENT, r.value.clientNs, ip)) && exists ip :: HasA(net, SERVICE, r.value.serviceNs, ip)
    ensures r.Ok? ==> Alias(net, CLIENT, r.value.clientHost + "." + CLIENT, r.value.clientNs)
    ensures r.Ok? ==> Alias(net, SERVICE, r.value.serviceHost + "." + SERVICE, r.value.serviceNs)
    ensures r.Ok? ==> OnlyInfra(net, r.value.clientHost, false) && OnlyInfra(net, r.value.serviceHost, true)
  {
    hide HasA, ForwardZone, ReverseZones, NodeOk, PrimaryPlane, PlaneName, Served, OnlyInfra, Rev, NoForwardingCycle, Spelled, SpelledReverse, Alias, Fqdn;
    var infra := InfraByOrg(net);
    if infra.Err? {
      return Err(infra.error);
    }
    var (clientHost, serviceHost) := infra.value;
    RenderableIff(net, clientHost, serviceHost);
    hide Renderable;
    forall h | h in net.nodes ensures NodeOk(net.nodes[h]) ==> NsFqdn(h, net.nodes[h]).Some? && ZoneOf(net.nodes[h]).Some? {
      NodeHasNs(net, h);
    }
    InfraNodes(net, clientHost, serviceHost);
    var clientNode, serviceNode := net.nodes[clientHost], net.nodes[serviceHost];
    var clientNs, serviceNs := NsFqdn(clientHost, clientNode), NsFqdn(serviceHost, serviceNode);
    if clientNs == None {
      return Err(NoPrimary(clientHost));
    }
    if serviceNs == None {
      return Err(NoPrimary(serviceHost));
    }
    var forward := ForwardZones(net);
    if forward.Err? {
      return Err(forward.error);
    }
    var reverse := AllReverseZones(net);
    if reverse.Err? {
      return Err(reverse.error);
    }
    if "net-ext" !in serviceNode.nics {
      return Err(NoExt(serviceHost));
    }
    if "net-ext" !in clientNode.nics {
      return Err(NoExt(clientHost));
    }
    ReverseIsNotForward(net, reverse.value);
    NsResolves(net, clientHost, CLIENT);
    NsResolves(net, serviceHost, SERVICE);
    NsIsAlias(net, clientHost, CLIENT);
    NsIsAlias(net, serviceHost, SERVICE);
    var clientLocal, serviceLocal := Locals({CLIENT} + reverse.value.Keys, clientNode.nics["net-ext"], serviceNode.nics["net-ext"]);
    var out := Rendered(clientHost, serviceHost, clientNs.value, serviceNs.value, forward.value.0, forward.value.1, reverse.value, clientLocal, serviceLocal);
    assert Zones(out) == {CLIENT} + reverse.value.Keys + {SERVICE};
    assert NoForwardingCycle(net, out) by {
      NoCycle(net, out);
    }
    return Ok(out);
  }

  lemma {:induction false} InfraNodes(net: Net, clientHost: string, serviceHost: string)
    requires OnlyInfra(net, clientHost, false) && OnlyInfra(net, serviceHost, true)
    ensures clientHost in net.nodes && serviceHost in net.nodes && clientHost != serviceHost
    ensures ZoneOf(net.nodes[clientHost]).Some? ==> ZoneOf(net.nodes[clientHost]) == Some(CLIENT)
    ensures ZoneOf(net.nodes[serviceHost]) == Some(SERVICE)
  {
  }
}
