/** Forward and reverse DNS records from the topology's interfaces. */
module Dns {
  import opened Wrappers

  /** `nics` maps a plane to an address. */
  datatype Node = Node(org: Option<string>, nics: map<string, string>)

  /** A stack's VIPs, each under its short name. */
  datatype Vips = Vips(short: string, vip: Option<string>, vipB: Option<string>, vipExt: Option<string>, vipExtB: Option<string>)

  datatype Net = Net(nodes: map<string, Node>, vips: seq<Vips>, infra: seq<string>)

  datatype Kind = A | Cname | Ptr

  datatype Record = Record(name: string, kind: Kind, value: string)

  datatype DnsError = BadOrg(host: string) | NoNics(host: string) | NoPrimary(host: string) | BadAddress(ip: string)
    | UndefinedInfra(host: string) | TwoInfra(org: string) | NoInfra(org: string) | NoExt(host: string)

  const CLIENT := "client.com"
  const SERVICE := "service.com"
  const NET := "net-"
  const ARPA := ".in-addr.arpa"

  /** The plane's function label. */
  function Suffix(plane: string): string { if NET <= plane then plane[|NET|..] else plane }

  function ZoneOf(n: Node): Option<string> {
    match n.org
    case None => Some(CLIENT)
    case Some(org) => if org == "client" then Some(CLIENT) else if org == "service" then Some(SERVICE) else None
  }

  /** The first plane of the priority order a node has. */
  function PrimaryPlane(nics: map<string, string>): Option<string> {
    if "net-data-a" in nics then Some("net-data-a")
    else if "net-data-b" in nics then Some("net-data-b")
    else if "net-ext" in nics then Some("net-ext")
    else if "net-mgmt" in nics then Some("net-mgmt")
    else None
  }

  function Fqdn(name: string, zone: string): string { name + "." + zone }

  function PlaneName(host: string, plane: string, zone: string): string { Fqdn(host + "-" + Suffix(plane), zone) }

  // ----- reverse names ------------------------------------------------------------------

  /** `text.split('.')`. */
  function SplitDots(s: string): (parts: seq<string>)
    ensures |parts| >= 1
  {
    if s == "" then [""]
    else
      var rest := SplitDots(s[1..]);
      if s[0] == '.' then [""] + rest else [[s[0]] + rest[0]] + rest[1..]
  }

  function JoinDots(parts: seq<string>): string
    requires |parts| >= 1
  {
    if |parts| == 1 then parts[0] else parts[0] + "." + JoinDots(parts[1..])
  }

  lemma {:induction false} JoinSplit(s: string)
    ensures JoinDots(SplitDots(s)) == s
    ensures forall p :: p in SplitDots(s) ==> '.' !in p
  {
    if s != "" {
      JoinSplit(s[1..]);
      var rest := SplitDots(s[1..]);
      assert s == [s[0]] + s[1..];
      if s[0] == '.' {
        assert ([""] + rest)[1..] == rest;
      } else {
        var parts := [[s[0]] + rest[0]] + rest[1..];
        assert parts[1..] == rest[1..];
        assert rest[0] in rest;
      }
    }
  }

  lemma {:induction false} SplitJoin(parts: seq<string>)
    requires |parts| >= 1 && forall p :: p in parts ==> '.' !in p
    ensures SplitDots(JoinDots(parts)) == parts
    decreases |parts|
  {
    if |parts| == 1 {
      SplitPlain(parts[0]);
    } else {
      var tail := JoinDots(parts[1..]);
      forall p | p in parts[1..] ensures '.' !in p {
        assert p in parts;
      }
      SplitJoin(parts[1..]);
      assert parts[0] in parts;
      SplitFirst(parts[0], tail);
      assert parts == [parts[0]] + parts[1..];
    }
  }

  lemma {:induction false} SplitPlain(p: string)
    requires '.' !in p
    ensures SplitDots(p) == [p]
  {
    if p != "" {
      assert p[0] in p;
      SplitPlain(p[1..]);
      assert p == [p[0]] + p[1..] && [p[1..]][1..] == [];
    }
  }

  lemma {:induction false} SplitFirst(p: string, tail: string)
    requires '.' !in p
    ensures SplitDots(p + "." + tail) == [p] + SplitDots(tail)
  {
    if p == "" {
      assert (p + "." + tail)[1..] == tail;
    } else {
      assert p[0] in p;
      assert (p + "." + tail)[1..] == p[1..] + "." + tail;
      SplitFirst(p[1..], tail);
      var rest := SplitDots(p[1..] + "." + tail);
      assert rest[1..] == SplitDots(tail) && [p[0]] + rest[0] == p;
    }
  }

  /** The reverse /24 zone and the PTR owner of an address. */
  function Rev(ip: string): Option<(string, string)> {
    var o := SplitDots(ip);
    if |o| != 4 then None
    else Some((JoinDots([o[2], o[1], o[0]]) + ARPA, JoinDots([o[3], o[2], o[1], o[0]]) + ARPA))
  }

  /** An owner lies in its zone, one label below the apex. */
  lemma {:induction false} OwnerInZone(ip: string)
    requires Rev(ip).Some?
    ensures exists octet :: Rev(ip).value.1 == octet + "." + Rev(ip).value.0 && '.' !in octet
  {
    var o := SplitDots(ip);
    JoinSplit(ip);
    assert o[3] in o;
    assert [o[3], o[2], o[1], o[0]][1..] == [o[2], o[1], o[0]];
    assert JoinDots([o[3], o[2], o[1], o[0]]) == o[3] + "." + JoinDots([o[2], o[1], o[0]]);
    assert Rev(ip).value.1 == o[3] + "." + Rev(ip).value.0;
  }

  /** Different addresses have different owners. */
  lemma {:induction false} RevInjective(ip: string, ip': string)
    requires Rev(ip).Some? && Rev(ip').Some? && Rev(ip).value.1 == Rev(ip').value.1
    ensures ip == ip'
  {
    hide SplitDots, JoinDots;
    var o, p := SplitDots(ip), SplitDots(ip');
    OwnerLabels(ip);
    OwnerLabels(ip');
    var a, b := [o[3], o[2], o[1], o[0]], [p[3], p[2], p[1], p[0]];
    var s, s' := JoinDots(a), JoinDots(b);
    assert (s + ARPA)[..|s|] == s && (s' + ARPA)[..|s'|] == s';
    assert a == b;
    assert o == [a[3], a[2], a[1], a[0]] && p == [b[3], b[2], b[1], b[0]];
  }

  /** An owner's labels are the address's octets, backwards. */
  lemma {:induction false} OwnerLabels(ip: string)
    requires Rev(ip).Some?
    ensures var o := SplitDots(ip);
            && |o| == 4 && JoinDots(o) == ip && Rev(ip).value.1 == JoinDots([o[3], o[2], o[1], o[0]]) + ARPA
            && SplitDots(JoinDots([o[3], o[2], o[1], o[0]])) == [o[3], o[2], o[1], o[0]]
  {
    hide SplitDots, JoinDots;
    var o := SplitDots(ip);
    JoinSplit(ip);
    assert forall x :: x in [o[3], o[2], o[1], o[0]] ==> x in o;
    SplitJoin([o[3], o[2], o[1], o[0]]);
  }

  // ----- the records, declaratively -----------------------------------------------------

  function VipName(short: string, title: string): string { Fqdn(short + "-" + title, CLIENT) }

  /** The VIP service names of one stack. */
  function VipsOf(v: Vips): seq<(string, string)> {
    if v.short == "" then []
    else
      Vip(v.short, "vip-a", v.vip) + Vip(v.short, "vip-b", v.vipB)
      + Vip(v.short, "vip-ext-a", v.vipExt) + Vip(v.short, "vip-ext-b", v.vipExtB)
  }

  function Vip(short: string, title: string, ip: Option<string>): seq<(string, string)> {
    if ip.Some? && ip.value != "" then [(VipName(short, title), ip.value)] else []
  }

  ghost predicate IsVip(net: Net, name: string, ip: string) {
    exists k :: 0 <= k < |net.vips| && (name, ip) in VipsOf(net.vips[k])
  }

  /** An interface's address record. */
  ghost predicate IsNic(net: Net, zone: string, host: string, plane: string, name: string, ip: string) {
    && host in net.nodes && plane in net.nodes[host].nics && ZoneOf(net.nodes[host]) == Some(zone)
    && name == PlaneName(host, plane, zone) && ip == net.nodes[host].nics[plane]
  }

  ghost predicate HasA(net: Net, zone: string, name: string, ip: string) {
    (exists host, plane :: IsNic(net, zone, host, plane, name, ip)) || (zone == CLIENT && IsVip(net, name, ip))
  }

  ghost predicate IsAlias(net: Net, zone: string, host: string, name: string, target: string) {
    && host in net.nodes && ZoneOf(net.nodes[host]) == Some(zone) && PrimaryPlane(net.nodes[host].nics).Some?
    && name == Fqdn(host, zone) && target == PlaneName(host, PrimaryPlane(net.nodes[host].nics).value, zone)
  }

  ghost predicate HasCname(net: Net, zone: string, name: string, target: string) {
    exists host :: IsAlias(net, zone, host, name, target)
  }

  ghost predicate HasPtr(net: Net, rz: string, owner: string, target: string) {
    exists zone, ip :: HasA(net, zone, target, ip) && Rev(ip) == Some((rz, owner))
  }

  /** A node the forward zones can render. */
  predicate NodeOk(n: Node) { ZoneOf(n).Some? && n.nics != map[] && PrimaryPlane(n.nics).Some? }

  ghost predicate ForwardZone(net: Net, zone: string, records: set<Record>) {
    forall r :: r in records <==>
      (r.kind == A && HasA(net, zone, r.name, r.value)) || (r.kind == Cname && HasCname(net, zone, r.name, r.value))
  }

  ghost predicate ReverseZones(net: Net, zones: map<string, set<Record>>) {
    && (forall rz, r :: rz in zones && r in zones[rz] ==> r.kind == Ptr && HasPtr(net, rz, r.name, r.value))
    && (forall rz, owner, target :: HasPtr(net, rz, owner, target) ==> rz in zones && Record(owner, Ptr, target) in zones[rz])
    && (forall rz :: rz in zones ==> zones[rz] != {})
  }

  // ----- the properties -----------------------------------------------------------------

  lemma {:induction false} AddressHasPtr(
      net: Net, zones: map<string, set<Record>>, zone: string, name: string, ip: string)
    requires ReverseZones(net, zones) && HasA(net, zone, name, ip) && Rev(ip).Some?
    ensures var (rz, owner) := Rev(ip).value; rz in zones && Record(owner, Ptr, name) in zones[rz]
  {
    hide HasA, Rev;
    var rz, owner := Rev(ip).value.0, Rev(ip).value.1;
    assert HasA(net, zone, name, ip) && Rev(ip) == Some((rz, owner));
    assert HasPtr(net, rz, owner, name);
  }

  /** Each PTR comes from exactly one address, in the zone it lies in. */
  lemma {:induction false} PtrsHaveOneAddress(net: Net, zones: map<string, set<Record>>, rz: string, r: Record)
    requires ReverseZones(net, zones) && rz in zones && r in zones[rz]
    ensures exists zone, ip :: HasA(net, zone, r.value, ip) && Rev(ip) == Some((rz, r.name))
    ensures forall ip, ip' :: Rev(ip).Some? && Rev(ip').Some? && Rev(ip).value.1 == r.name && Rev(ip').value.1 == r.name ==> ip == ip'
    ensures exists octet :: r.name == octet + "." + rz && '.' !in octet
  {
    hide HasA, Rev, SplitDots;
    assert HasPtr(net, rz, r.name, r.value);
    var zone, ip :| HasA(net, zone, r.value, ip) && Rev(ip) == Some((rz, r.name));
    forall x, y | Rev(x).Some? && Rev(y).Some? && Rev(x).value.1 == r.name && Rev(y).value.1 == r.name ensures x == y {
      RevInjective(x, y);
    }
    OwnerInZone(ip);
  }

  /** Every CNAME points at an address owner of its own zone. */
  lemma {:induction false} CnameTargetsResolve(net: Net, zone: string, name: string, target: string)
    requires HasCname(net, zone, name, target)
    ensures exists ip :: HasA(net, zone, target, ip)
  {
    var host :| IsAlias(net, zone, host, name, target);
    var plane := PrimaryPlane(net.nodes[host].nics).value;
    assert IsNic(net, zone, host, plane, target, net.nodes[host].nics[plane]);
    assert HasA(net, zone, target, net.nodes[host].nics[plane]);
  }

  /** Some interface or VIP of the zone carries the bare name of this host. */
  ghost predicate Shadowed(net: Net, zone: string, host: string) {
    || (exists other, plane :: NamedLike(net, zone, host, other, plane))
    || (zone == CLIENT && exists k, title, ip :: VipFor(net, k, title, ip) && host == net.vips[k].short + "-" + title)
  }

  ghost predicate NamedLike(net: Net, zone: string, host: string, other: string, plane: string) {
    && other in net.nodes && plane in net.nodes[other].nics && ZoneOf(net.nodes[other]) == Some(zone)
    && host == other + "-" + Suffix(plane)
  }

  ghost predicate VipFor(net: Net, k: int, title: string, ip: string) {
    0 <= k < |net.vips| && net.vips[k].short != "" && (VipName(net.vips[k].short, title), ip) in VipsOf(net.vips[k])
  }

  /** CNAME exclusivity (section 3.6.2 of RFC 1034) holds exactly when no host is named like
      another host's interface, or like a VIP. */
  lemma {:induction false} CnameExclusiveIff(net: Net, zone: string)
    requires forall h :: h in net.nodes ==> NodeOk(net.nodes[h])
    ensures (forall name, target, ip :: HasCname(net, zone, name, target) ==> !HasA(net, zone, name, ip))
            <==> forall h :: h in net.nodes && ZoneOf(net.nodes[h]) == Some(zone) ==> !Shadowed(net, zone, h)
  {
    hide PrimaryPlane, Suffix, Shadowed, HasA, VipsOf;
    forall h | h in net.nodes && ZoneOf(net.nodes[h]) == Some(zone)
      ensures Shadowed(net, zone, h) <==> exists ip :: HasA(net, zone, Fqdn(h, zone), ip)
    {
      ShadowedIff(net, zone, h);
    }
    forall h | h in net.nodes && ZoneOf(net.nodes[h]) == Some(zone)
      ensures exists target :: HasCname(net, zone, Fqdn(h, zone), target)
    {
      assert NodeOk(net.nodes[h]);
      var target := PlaneName(h, PrimaryPlane(net.nodes[h].nics).value, zone);
      assert IsAlias(net, zone, h, Fqdn(h, zone), target);
      assert HasCname(net, zone, Fqdn(h, zone), target);
    }
  }

  /** It can fail: host `a`'s data interface and host `a-data-a` share a name. */
  lemma {:induction false} NameClash() returns (net: Net, name: string, target: string, ip: string)
    ensures forall h :: h in net.nodes ==> NodeOk(net.nodes[h])
    ensures HasCname(net, CLIENT, name, target) && HasA(net, CLIENT, name, ip)
  {
    var a := Node(None, map["net-data-a" := "10.0.0.1"]);
    var b := Node(None, map["net-mgmt" := "10.0.1.2"]);
    net := Net(map["a" := a, "a-data-a" := b], [], []);
    name, target, ip := Fqdn("a-data-a", CLIENT), PlaneName("a-data-a", "net-mgmt", CLIENT), "10.0.0.1";
    assert Suffix("net-data-a") == "data-a" && "a" + "-" + "data-a" == "a-data-a";
    hide Suffix, Fqdn;
    assert IsNic(net, CLIENT, "a", "net-data-a", name, ip);
    assert IsAlias(net, CLIENT, "a-data-a", name, target);
  }

  lemma {:induction false} SameLabel(a: string, b: string, zone: string)
    ensures Fqdn(a, zone) == Fqdn(b, zone) <==> a == b
  {
    if Fqdn(a, zone) == Fqdn(b, zone) {
      assert |a| == |b|;
      assert a == Fqdn(a, zone)[..|a|] && b == Fqdn(b, zone)[..|b|];
    }
  }

  lemma {:induction false} ShadowedIff(net: Net, zone: string, h: string)
    ensures Shadowed(net, zone, h) <==> exists ip :: HasA(net, zone, Fqdn(h, zone), ip)
  {
    hide Suffix, Fqdn, VipsOf;
    var name := Fqdn(h, zone);
    if Shadowed(net, zone, h) {
      if other, plane :| NamedLike(net, zone, h, other, plane) {
        assert IsNic(net, zone, other, plane, name, net.nodes[other].nics[plane]);
        assert HasA(net, zone, name, net.nodes[other].nics[plane]);
      } else {
        var k, title, ip :| VipFor(net, k, title, ip) && h == net.vips[k].short + "-" + title;
        assert (name, ip) in VipsOf(net.vips[k]);
        assert HasA(net, zone, name, ip);
      }
    }
    if ip :| HasA(net, zone, name, ip) {
      if host, plane :| IsNic(net, zone, host, plane, name, ip) {
        SameLabel(h, host + "-" + Suffix(plane), zone);
        assert NamedLike(net, zone, h, host, plane);
      } else {
        var k :| 0 <= k < |net.vips| && (name, ip) in VipsOf(net.vips[k]);
        var title := VipTitle(net.vips[k], name, ip);
        SameLabel(h, net.vips[k].short + "-" + title, zone);
        assert VipFor(net, k, title, ip);
      }
    }
  }

  lemma {:induction false} VipTitle(v: Vips, name: string, ip: string) returns (title: string)
    requires (name, ip) in VipsOf(v)
    ensures v.short != "" && name == VipName(v.short, title)
  {
    title := if (name, ip) in Vip(v.short, "vip-a", v.vip) then "vip-a"
             else if (name, ip) in Vip(v.short, "vip-b", v.vipB) then "vip-b"
             else if (name, ip) in Vip(v.short, "vip-ext-a", v.vipExt) then "vip-ext-a"
             else "vip-ext-b";
  }

  // ----- the generators -----------------------------------------------------------------

  method NodeForward(ghost net: Net, host: string, n: Node, zone: string) returns (r: Result<set<Record>, DnsError>)
    requires host in net.nodes && net.nodes[host] == n && ZoneOf(n) == Some(zone)
    ensures r.Ok? <==> NodeOk(n)
    ensures r.Err? ==> r.error == if n.nics == map[] then NoNics(host) else NoPrimary(host)
    ensures r.Ok? ==> forall x :: x in r.value <==>
              || (x.kind == A && exists plane :: IsNic(net, zone, host, plane, x.name, x.value))
              || (x.kind == Cname && IsAlias(net, zone, host, x.name, x.value))
  {
    hide PrimaryPlane, Suffix;
    if n.nics == map[] {
      return Err(NoNics(host));
    }
    var primary := PrimaryPlane(n.nics);
    if primary == None {
      return Err(NoPrimary(host));
    }
    var addresses := set plane | plane in n.nics :: Record(PlaneName(host, plane, zone), A, n.nics[plane]);
    forall x ensures x in addresses <==> x.kind == A && exists plane :: IsNic(net, zone, host, plane, x.name, x.value) {
      if plane :| x.kind == A && IsNic(net, zone, host, plane, x.name, x.value) {
        assert x == Record(PlaneName(host, plane, zone), A, n.nics[plane]);
      }
      if x in addresses {
        var plane :| plane in n.nics && x == Record(PlaneName(host, plane, zone), A, n.nics[plane]);
        assert IsNic(net, zone, host, plane, x.name, x.value);
      }
    }
    r := Ok(addresses + {Record(Fqdn(host, zone), Cname, PlaneName(host, primary.value, zone))});
  }

  method AllVips(net: Net) returns (out: seq<(string, string)>)
    ensures forall name, ip :: (name, ip) in out <==> IsVip(net, name, ip)
  {
    hide VipsOf;
    out := [];
    for i := 0 to |net.vips|
      invariant forall name, ip :: (name, ip) in out <==> exists k :: 0 <= k < i && (name, ip) in VipsOf(net.vips[k])
    {
      out := out + VipsOf(net.vips[i]);
    }
  }

  /** The error names a host, and what is wrong with it. */
  ghost predicate Blames(net: Net, error: DnsError) {
    match error
    case BadOrg(h) => h in net.nodes && forall zone :: !InZone(net.nodes[h], zone)
    case NoNics(h) => h in net.nodes && net.nodes[h].nics == map[]
    case NoPrimary(h) => h in net.nodes && net.nodes[h].nics != map[] && forall plane :: !Primary(net.nodes[h].nics, plane)
    case _ => false
  }

  lemma {:induction false} Blamed(net: Net, h: string)
    requires h in net.nodes && !NodeOk(net.nodes[h])
    ensures Blames(net, if ZoneOf(net.nodes[h]).None? then BadOrg(h) else if net.nodes[h].nics == map[] then NoNics(h) else NoPrimary(h))
  {
    NodeOkIff(net.nodes[h]);
  }

  /** Both forward zones. */
  method ForwardZones(net: Net) returns (r: Result<(set<Record>, set<Record>), DnsError>)
    ensures r.Ok? <==> forall h :: h in net.nodes ==> NodeOk(net.nodes[h])
    ensures r.Ok? ==> ForwardZone(net, CLIENT, r.value.0) && ForwardZone(net, SERVICE, r.value.1)
    ensures r.Err? ==> Blames(net, r.error)
    ensures r.Ok? ==> Spelled(net, "client.com", r.value.0) && Spelled(net, "service.com", r.value.1)
  {
    hide PrimaryPlane, Suffix, PlaneName, IsVip, IsNic, IsAlias, PartOf, NodeOk, Spelled, Blames;
    var client, service: set<Record> := {}, {};
    NoPart(net, CLIENT);
    NoPart(net, SERVICE);
    var rest := net.nodes.Keys;
    assert net.nodes.Keys - rest == {};
    while rest != {}
      invariant rest <= net.nodes.Keys && forall h :: h in net.nodes && h !in rest ==> NodeOk(net.nodes[h])
      invariant PartOf(net, CLIENT, net.nodes.Keys - rest, client) && PartOf(net, SERVICE, net.nodes.Keys - rest, service)
      decreases rest
    {
      var h :| h in rest;
      var n := net.nodes[h];
      var zone := ZoneOf(n);
      if zone == None {
        ZoneNeeded(n);
        Blamed(net, h);
        return Err(BadOrg(h));
      }
      var recs := NodeForward(net, h, n, zone.value);
      if recs.Err? {
        Blamed(net, h);
        return Err(recs.error);
      }
      ghost var done := net.nodes.Keys - rest;
      OtherZone(net, h, zone.value);
      MorePart(net, CLIENT, zone.value, done, h, client, recs.value);
      MorePart(net, SERVICE, zone.value, done, h, service, recs.value);
      if zone.value == CLIENT {
        client := client + recs.value;
      } else {
        service := service + recs.value;
      }
      rest := rest - {h};
      assert net.nodes.Keys - rest == done + {h};
    }
    var vips := AllVips(net);
    var extra := set v | v in vips :: Record(v.0, A, v.1);
    forall x ensures x in extra <==> x.kind == A && IsVip(net, x.name, x.value) {
      if x.kind == A && IsVip(net, x.name, x.value) {
        assert (x.name, x.value) in vips && x == Record((x.name, x.value).0, A, (x.name, x.value).1);
      }
    }
    assert net.nodes.Keys - {} == net.nodes.Keys;
    WholeZone(net, CLIENT, net.nodes.Keys, client, client + extra);
    WholeZone(net, SERVICE, net.nodes.Keys, service, service);
    ZoneSpelled(net, CLIENT, client + extra);
    ZoneSpelled(net, SERVICE, service);
    return Ok((client + extra, service));
  }

  /** The records of the nodes in `hosts`. */
  ghost predicate PartOf(net: Net, zone: string, hosts: set<string>, records: set<Record>) {
    forall x :: x in records <==>
      || (x.kind == A && exists h, plane :: h in hosts && IsNic(net, zone, h, plane, x.name, x.value))
      || (x.kind == Cname && exists h :: h in hosts && IsAlias(net, zone, h, x.name, x.value))
  }

  lemma {:induction false} NoPart(net: Net, zone: string)
    ensures PartOf(net, zone, {}, {})
  {
  }

  lemma {:induction false} ZoneNeeded(n: Node)
    ensures NodeOk(n) ==> ZoneOf(n).Some?
  {
  }

  /** One more host adds its records to the part of its own zone only. */
  lemma {:induction false} MorePart(
      net: Net, zone: string, own: string, hosts: set<string>, h: string, part: set<Record>, recs: set<Record>)
    requires PartOf(net, zone, hosts, part) && h in net.nodes && ZoneOf(net.nodes[h]) == Some(own)
    requires forall x :: x in recs <==>
               || (x.kind == A && exists plane :: IsNic(net, own, h, plane, x.name, x.value))
               || (x.kind == Cname && IsAlias(net, own, h, x.name, x.value))
    ensures PartOf(net, zone, hosts + {h}, if own == zone then part + recs else part)
  {
    hide IsNic, IsAlias;
    OtherZone(net, h, own);
  }

  lemma {:induction false} OtherZone(net: Net, h: string, zone: string)
    requires h in net.nodes && ZoneOf(net.nodes[h]) == Some(zone)
    ensures forall z, plane, name, ip :: IsNic(net, z, h, plane, name, ip) ==> z == zone
    ensures forall z, name, target :: IsAlias(net, z, h, name, target) ==> z == zone
    ensures zone == CLIENT || zone == SERVICE
  {
  }

  lemma {:induction false} WholeZone(net: Net, zone: string, hosts: set<string>, part: set<Record>, whole: set<Record>)
    requires PartOf(net, zone, hosts, part) && hosts == net.nodes.Keys
    requires forall x :: x in whole <==> x in part || (zone == CLIENT && x.kind == A && IsVip(net, x.name, x.value))
    ensures ForwardZone(net, zone, whole)
  {
    hide IsVip;
  }

  /** One reverse zone per /24 in use. */
  method AllReverseZones(net: Net) returns (r: Result<map<string, set<Record>>, DnsError>)
    ensures r.Ok? <==> (forall h :: h in net.nodes ==> ZoneOf(net.nodes[h]).Some?)
                       && forall zone, name, ip :: HasA(net, zone, name, ip) ==> Rev(ip).Some?
    ensures r.Ok? ==> ReverseZones(net, r.value) && SpelledReverse(net, r.value)
    ensures r.Ok? ==> forall zone, name, ip :: HasA(net, zone, name, ip) ==>
              var (rz, owner) := Rev(ip).value; rz in r.value && Record(owner, Ptr, name) in r.value[rz]
  {
    hide Rev, HasA, PlaneName, IsVip, SpelledReverse;
    var pairs := Addresses(net);
    if pairs.Err? {
      return Err(pairs.error);
    }
    var zones: map<string, set<Record>> := map[];
    var rest := pairs.value;
    while rest != {}
      invariant rest <= pairs.value && forall p :: p in pairs.value && p !in rest ==> Rev(p.1).Some?
      invariant PtrsOf(pairs.value - rest, zones)
      decreases rest
    {
      var p :| p in rest;
      var rev := Rev(p.1);
      if rev == None {
        assert !forall zone, name, ip :: HasA(net, zone, name, ip) ==> Rev(ip).Some? by {
          var zone :| HasA(net, zone, p.0, p.1);
        }
        return Err(BadAddress(p.1));
      }
      var (rz, owner) := rev.value;
      AddPtr(pairs.value - rest, zones, p, rz, owner);
      assert pairs.value - (rest - {p}) == pairs.value - rest + {p};
      zones := zones[rz := (if rz in zones then zones[rz] else {}) + {Record(owner, Ptr, p.0)}];
      rest := rest - {p};
    }
    assert pairs.value - {} == pairs.value;
    PtrsAreReverse(net, pairs.value, zones);
    forall zone, name, ip | HasA(net, zone, name, ip) ensures Rev(ip).Some? {
      assert HasA(net, zone, (name, ip).0, (name, ip).1);
      assert (name, ip) in pairs.value;
    }
    forall zone, name, ip | HasA(net, zone, name, ip)
      ensures var (rz, owner) := Rev(ip).value; rz in zones && Record(owner, Ptr, name) in zones[rz]
    {
      AddressHasPtr(net, zones, zone, name, ip);
    }
    ReverseSpelled(net, zones);
    return Ok(zones);
  }

  /** Every (name, address) pair of an interface or a VIP. */
  method Addresses(net: Net) returns (r: Result<set<(string, string)>, DnsError>)
    ensures r.Ok? <==> forall h :: h in net.nodes ==> ZoneOf(net.nodes[h]).Some?
    ensures r.Ok? ==> forall p :: p in r.value <==> exists zone :: HasA(net, zone, p.0, p.1)
  {
    hide Suffix, PlaneName, IsVip;
    var out: set<(string, string)> := {};
    var rest := net.nodes.Keys;
    while rest != {}
      invariant rest <= net.nodes.Keys && forall h :: h in net.nodes && h !in rest ==> ZoneOf(net.nodes[h]).Some?
      invariant forall p :: p in out <==> exists zone, h, plane :: h !in rest && IsNic(net, zone, h, plane, p.0, p.1)
      decreases rest
    {
      var h :| h in rest;
      var n := net.nodes[h];
      var zone := ZoneOf(n);
      if zone == None {
        return Err(BadOrg(h));
      }
      var nics := set plane | plane in n.nics :: (PlaneName(h, plane, zone.value), n.nics[plane]);
      forall p ensures p in nics <==> exists z, plane :: IsNic(net, z, h, plane, p.0, p.1) {
        if z, plane :| IsNic(net, z, h, plane, p.0, p.1) {
          assert p == (PlaneName(h, plane, zone.value), n.nics[plane]);
        }
        if p in nics {
          var plane :| plane in n.nics && p == (PlaneName(h, plane, zone.value), n.nics[plane]);
          assert IsNic(net, zone.value, h, plane, p.0, p.1);
        }
      }
      out := out + nics;
      rest := rest - {h};
    }
    var vips := AllVips(net);
    ghost var nics := out;
    assert forall p :: p in nics <==> exists zone, h, plane :: IsNic(net, zone, h, plane, p.0, p.1);
    out := out + set v | v in vips;
    forall p ensures p in out <==> exists zone :: HasA(net, zone, p.0, p.1) {
      assert (p.0, p.1) == p;
      if p in vips {
        assert HasA(net, CLIENT, p.0, p.1);
      }
      if p in nics {
        var zone, h, plane :| IsNic(net, zone, h, plane, p.0, p.1);
        assert HasA(net, zone, p.0, p.1);
      }
    }
    return Ok(out);
  }

  ghost predicate PtrFrom(pairs: set<(string, string)>, rz: string, x: Record) {
    exists p :: p in pairs && p.0 == x.value && Rev(p.1) == Some((rz, x.name))
  }

  /** The zones hold exactly the PTRs of these pairs. */
  ghost predicate PtrsOf(pairs: set<(string, string)>, zones: map<string, set<Record>>) {
    && (forall rz, x :: rz in zones && x in zones[rz] ==> x.kind == Ptr && PtrFrom(pairs, rz, x))
    && (forall p, rz, owner :: p in pairs && Rev(p.1) == Some((rz, owner)) ==> rz in zones && Record(owner, Ptr, p.0) in zones[rz])
    && (forall rz :: rz in zones ==> zones[rz] != {})
  }

  lemma {:induction false} AddPtr(
      pairs: set<(string, string)>, zones: map<string, set<Record>>, p: (string, string), rz: string,
      owner: string)
    requires PtrsOf(pairs, zones) && Rev(p.1) == Some((rz, owner))
    ensures PtrsOf(pairs + {p}, zones[rz := (if rz in zones then zones[rz] else {}) + {Record(owner, Ptr, p.0)}])
  {
    hide Rev;
  }

  lemma {:induction false} AddressOf(net: Net, rz: string, owner: string, target: string) returns (ip: string)
    requires HasPtr(net, rz, owner, target)
    ensures Rev(ip) == Some((rz, owner)) && exists zone :: HasA(net, zone, target, ip)
  {
    hide Rev, HasA;
    var zone, i :| HasA(net, zone, target, i) && Rev(i) == Some((rz, owner));
    ip := i;
  }

  lemma {:induction false} PtrsAreReverse(net: Net, pairs: set<(string, string)>, zones: map<string, set<Record>>)
    requires PtrsOf(pairs, zones) && forall p :: p in pairs <==> exists zone :: HasA(net, zone, p.0, p.1)
    ensures ReverseZones(net, zones)
  {
    hide Rev, HasA;
    forall rz, x | rz in zones && x in zones[rz] ensures x.kind == Ptr && HasPtr(net, rz, x.name, x.value) {
      assert PtrFrom(pairs, rz, x);
      var p :| p in pairs && p.0 == x.value && Rev(p.1) == Some((rz, x.name));
      var zone :| HasA(net, zone, p.0, p.1);
    }
    forall rz, owner, target | HasPtr(net, rz, owner, target) ensures rz in zones && Record(owner, Ptr, target) in zones[rz] {
      var ip := AddressOf(net, rz, owner, target);
      var p := (target, ip);
      assert p in pairs;
    }
  }

  // ----- the records, spelled out -------------------------------------------------------

  ghost predicate InZone(n: Node, zone: string) {
    || (zone == "client.com" && (n.org == None || n.org == Some("client")))
    || (zone == "service.com" && n.org == Some("service"))
  }

  /** The plane's label is the plane without a leading `net-`. */
  ghost predicate IsLabel(plane: string, tag: string) { plane == "net-" + tag || (plane == tag && !("net-" <= plane)) }

  /** Data plane a goes before data plane b, that before the external plane, and the management
      plane comes last. */
  ghost predicate Primary(nics: map<string, string>, plane: string) {
    plane in nics && (
      || plane == "net-data-a"
      || (plane == "net-data-b" && "net-data-a" !in nics)
      || (plane == "net-ext" && "net-data-a" !in nics && "net-data-b" !in nics)
      || (plane == "net-mgmt" && "net-data-a" !in nics && "net-data-b" !in nics && "net-ext" !in nics))
  }

  /** `<host>-<label>.<zone>`, for a node of the zone with an interface on the plane. */
  ghost predicate Interface(net: Net, zone: string, host: string, plane: string, tag: string, name: string) {
    && host in net.nodes && InZone(net.nodes[host], zone) && plane in net.nodes[host].nics
    && IsLabel(plane, tag) && name == host + "-" + tag + "." + zone
  }

  /** The four addresses a stack may have, and their titles. */
  ghost predicate Titled(v: Vips, title: string, ip: string) {
    || (v.vip == Some(ip) && title == "vip-a")
    || (v.vipB == Some(ip) && title == "vip-b")
    || (v.vipExt == Some(ip) && title == "vip-ext-a")
    || (v.vipExtB == Some(ip) && title == "vip-ext-b")
  }

  ghost predicate VipRecord(v: Vips, name: string, ip: string) {
    v.short != "" && ip != "" && exists title :: Titled(v, title, ip) && name == v.short + "-" + title + ".client.com"
  }

  ghost predicate Address(net: Net, zone: string, name: string, ip: string) {
    || (exists host, plane, tag :: Interface(net, zone, host, plane, tag, name) && net.nodes[host].nics[plane] == ip)
    || (zone == "client.com" && exists k :: 0 <= k < |net.vips| && VipRecord(net.vips[k], name, ip))
  }

  ghost predicate Alias(net: Net, zone: string, name: string, target: string) {
    exists host, plane, tag ::
      && Interface(net, zone, host, plane, tag, target) && Primary(net.nodes[host].nics, plane)
      && name == host + "." + zone
  }

  /** `a.b.c.d`, its zone `c.b.a.in-addr.arpa`, and its owner `d.c.b.a.in-addr.arpa`. */
  ghost predicate Reverse(ip: string, a: string, b: string, c: string, d: string, rz: string, owner: string) {
    && '.' !in a && '.' !in b && '.' !in c && '.' !in d
    && ip == a + "." + b + "." + c + "." + d
    && rz == c + "." + b + "." + a + ".in-addr.arpa" && owner == d + "." + rz
  }

  /** Exactly these address and alias records. */
  ghost predicate Spelled(net: Net, zone: string, records: set<Record>) {
    forall r :: r in records <==>
      (r.kind == A && Address(net, zone, r.name, r.value)) || (r.kind == Cname && Alias(net, zone, r.name, r.value))
  }

  lemma {:induction false} ZoneIff(n: Node, zone: string)
    ensures ZoneOf(n) == Some(zone) <==> InZone(n, zone)
  {
  }

  lemma {:induction false} LabelIff(plane: string, tag: string)
    ensures Suffix(plane) == tag <==> IsLabel(plane, tag)
  {
    if plane == "net-" + tag {
      assert plane[|NET|..] == tag;
    }
  }

  lemma {:induction false} PrimaryIff(nics: map<string, string>, plane: string)
    ensures PrimaryPlane(nics) == Some(plane) <==> Primary(nics, plane)
  {
  }

  lemma {:induction false} NameIs(host: string, plane: string, tag: string, zone: string)
    requires IsLabel(plane, tag)
    ensures PlaneName(host, plane, zone) == host + "-" + tag + "." + zone
  {
    LabelIff(plane, tag);
  }

  lemma {:induction false} HasLabel(plane: string) returns (tag: string)
    ensures IsLabel(plane, tag)
  {
    tag := Suffix(plane);
    LabelIff(plane, tag);
  }

  lemma {:induction false} VipIff(v: Vips, name: string, ip: string)
    ensures (name, ip) in VipsOf(v) <==> VipRecord(v, name, ip)
  {
    hide VipName;
    if (name, ip) in VipsOf(v) {
      var title :| Titled(v, title, ip) && name == VipName(v.short, title);
      VipNamed(v.short, title);
    }
    if VipRecord(v, name, ip) {
      var title :| Titled(v, title, ip) && name == v.short + "-" + title + ".client.com";
      VipNamed(v.short, title);
    }
  }

  lemma {:induction false} VipNamed(short: string, title: string)
    ensures VipName(short, title) == short + "-" + title + ".client.com"
  {
  }

  lemma {:induction false} AddressIff(net: Net, zone: string, name: string, ip: string)
    ensures HasA(net, zone, name, ip) <==> Address(net, zone, name, ip)
  {
    hide ZoneOf, InZone, PlaneName, VipsOf, VipRecord, IsLabel;
    if host, plane :| IsNic(net, zone, host, plane, name, ip) {
      var tag := HasLabel(plane);
      NameIs(host, plane, tag, zone);
      ZoneIff(net.nodes[host], zone);
      assert Interface(net, zone, host, plane, tag, name);
    }
    if host, plane, tag :| Interface(net, zone, host, plane, tag, name) && net.nodes[host].nics[plane] == ip {
      NameIs(host, plane, tag, zone);
      ZoneIff(net.nodes[host], zone);
      assert IsNic(net, zone, host, plane, name, ip);
    }
    forall k | 0 <= k < |net.vips| ensures (name, ip) in VipsOf(net.vips[k]) <==> VipRecord(net.vips[k], name, ip) {
      VipIff(net.vips[k], name, ip);
    }
  }

  lemma {:induction false} AliasIff(net: Net, zone: string, name: string, target: string)
    ensures HasCname(net, zone, name, target) <==> Alias(net, zone, name, target)
  {
    hide ZoneOf, InZone, PlaneName, IsLabel, Primary, PrimaryPlane;
    if host :| IsAlias(net, zone, host, name, target) {
      var plane := PrimaryPlane(net.nodes[host].nics).value;
      var tag := HasLabel(plane);
      PrimaryIff(net.nodes[host].nics, plane);
      PrimaryHeld(net.nodes[host].nics, plane);
      NameIs(host, plane, tag, zone);
      ZoneIff(net.nodes[host], zone);
      assert Interface(net, zone, host, plane, tag, target);
    }
    if host, plane, tag :| Interface(net, zone, host, plane, tag, target) && Primary(net.nodes[host].nics, plane) && name == host + "." + zone {
      PrimaryIff(net.nodes[host].nics, plane);
      NameIs(host, plane, tag, zone);
      ZoneIff(net.nodes[host], zone);
      assert IsAlias(net, zone, host, name, target);
    }
  }

  lemma {:induction false} PrimaryHeld(nics: map<string, string>, plane: string)
    requires Primary(nics, plane)
    ensures plane in nics
  {
  }

  /** A forward zone holds exactly the records written out above. */
  lemma {:induction false} ZoneSpelled(net: Net, zone: string, records: set<Record>)
    ensures ForwardZone(net, zone, records) <==> Spelled(net, zone, records)
  {
    hide HasA, HasCname, Address, Alias;
    forall r: Record
      ensures HasA(net, zone, r.name, r.value) <==> Address(net, zone, r.name, r.value)
      ensures HasCname(net, zone, r.name, r.value) <==> Alias(net, zone, r.name, r.value)
    {
      AddressIff(net, zone, r.name, r.value);
      AliasIff(net, zone, r.name, r.value);
    }
  }

  /** An address has a reverse name exactly when it has four parts, and it is those backwards. */
  lemma {:induction false} RevIff(ip: string, rz: string, owner: string)
    ensures Rev(ip) == Some((rz, owner)) <==> exists a, b, c, d :: Reverse(ip, a, b, c, d, rz, owner)
  {
    hide SplitDots;
    var o := SplitDots(ip);
    JoinSplit(ip);
    if Rev(ip) == Some((rz, owner)) {
      Backwards(o[0], o[1], o[2], o[3]);
      assert o == [o[0], o[1], o[2], o[3]];
      assert Reverse(ip, o[0], o[1], o[2], o[3], rz, owner) by {
        hide JoinDots;
        assert o[0] in o && o[1] in o && o[2] in o && o[3] in o;
      }
    }
    if a, b, c, d :| Reverse(ip, a, b, c, d, rz, owner) {
      Backwards(a, b, c, d);
      SplitJoin([a, b, c, d]);
    }
  }

  /** A PTR for each address of either zone that has a reverse name. */
  ghost predicate Pointer(net: Net, rz: string, owner: string, target: string, zone: string, ip: string) {
    Address(net, zone, target, ip) && exists a, b, c, d :: Reverse(ip, a, b, c, d, rz, owner)
  }

  ghost predicate HasPointer(net: Net, rz: string, owner: string, target: string) {
    exists zone, ip :: Pointer(net, rz, owner, target, zone, ip)
  }

  /** Exactly these PTR records. */
  ghost predicate SpelledReverse(net: Net, zones: map<string, set<Record>>) {
    forall rz, r: Record :: (rz in zones && r in zones[rz]) <==> r.kind == Ptr && HasPointer(net, rz, r.name, r.value)
  }

  lemma {:induction false} PtrIff(net: Net, rz: string, owner: string, target: string)
    ensures HasPtr(net, rz, owner, target) <==> HasPointer(net, rz, owner, target)
  {
    hide HasA, Address, Rev, Reverse;
    forall zone, ip ensures Pointer(net, rz, owner, target, zone, ip) <==> HasA(net, zone, target, ip) && Rev(ip) == Some((rz, owner)) {
      AddressIff(net, zone, target, ip);
      RevIff(ip, rz, owner);
    }
  }

  lemma {:induction false} ReverseSpelled(net: Net, zones: map<string, set<Record>>)
    requires ReverseZones(net, zones)
    ensures SpelledReverse(net, zones)
  {
    hide HasPtr, HasPointer;
    forall rz, r: Record
      ensures (rz in zones && r in zones[rz]) <==> r.kind == Ptr && HasPointer(net, rz, r.name, r.value)
    {
      PtrIff(net, rz, r.name, r.value);
      assert r.kind == Ptr ==> r == Record(r.name, Ptr, r.value);
    }
  }

  /** A node is rendered exactly when it lies in a zone and has one of the four planes. */
  lemma {:induction false} NodeOkIff(n: Node)
    ensures NodeOk(n) <==> (exists zone :: InZone(n, zone)) && exists plane :: Primary(n.nics, plane)
  {
    hide ZoneOf, InZone, PrimaryPlane, Primary;
    if NodeOk(n) {
      ZoneIff(n, ZoneOf(n).value);
      PrimaryIff(n.nics, PrimaryPlane(n.nics).value);
    }
    if (exists zone :: InZone(n, zone)) && exists plane :: Primary(n.nics, plane) {
      var zone :| InZone(n, zone);
      var plane :| Primary(n.nics, plane);
      ZoneIff(n, zone);
      PrimaryIff(n.nics, plane);
      PrimaryHeld(n.nics, plane);
      assert n.nics != map[] by { assert plane in n.nics; }
    }
  }

  lemma {:induction false} Backwards(a: string, b: string, c: string, d: string)
    ensures JoinDots([a, b, c, d]) == a + "." + b + "." + c + "." + d
    ensures JoinDots([c, b, a]) + ARPA == c + "." + b + "." + a + ".in-addr.arpa"
    ensures JoinDots([d, c, b, a]) + ARPA == d + "." + (c + "." + b + "." + a + ".in-addr.arpa")
  {
    hide JoinDots;
    Three(b, c, d);
    Three(c, b, a);
    Two(a, [b, c, d]);
    Two(d, [c, b, a]);
    assert [a] + [b, c, d] == [a, b, c, d] && [d] + [c, b, a] == [d, c, b, a];
    assert a + "." + (b + "." + c + "." + d) == a + "." + b + "." + c + "." + d;
    assert d + "." + (c + "." + b + "." + a) + ARPA == d + "." + (c + "." + b + "." + a + ARPA);
  }

  lemma {:induction false} Two(a: string, rest: seq<string>)
    requires rest != []
    ensures JoinDots([a] + rest) == a + "." + JoinDots(rest)
  {
    assert ([a] + rest)[1..] == rest;
  }

  lemma {:induction false} Three(a: string, b: string, c: string)
    ensures JoinDots([a, b, c]) == a + "." + b + "." + c
  {
    hide JoinDots;
    Two(a, [b, c]);
    Two(b, [c]);
    assert [a] + [b, c] == [a, b, c] && [b] + [c] == [b, c] && JoinDots([c]) == c by { One(c); }
    assert a + "." + (b + "." + c) == a + "." + b + "." + c;
  }

  lemma {:induction false} One(a: string)
    ensures JoinDots([a]) == a
  {
  }
}
