/** `mqlab box gc --unreferenced` as a whole: the catalog decides what is protected. */
module BoxCommand {
  import opened Wrappers
  import opened BoxNames
  import opened BoxPool
  import opened Topology
  import opened Versions
  import opened BoxGc

  /** The boxes of every selection exist. */
  ghost predicate Complete(c: Catalog, stackRoles: map<string, set<string>>) {
    && (forall s :: s in stackRoles ==> s in c.stacks)
    && forall p :: p in AllPicks(c, None, stackRoles) ==> Box(c, p.0, p.1).Ok?
  }

  /** Each recorded OS is one its stack supports. */
  ghost predicate RecordsSupported(topo: Topo, c: Catalog, records: map<string, OsRef>) {
    forall s :: s in topo.stacks ==> s in c.stacks && (s in records ==> records[s] in c.stacks[s].supported)
  }

  /** Reads the protected names off the catalog, removes the other boxes, and collects their
      images. Refused before anything changes when the catalog cannot resolve its own boxes. */
  method GcUnreferenced(
      host: Host, topo: Topo, c: Catalog, facts: Facts, listing: seq<string>, again: seq<string>, roles: seq<string>,
      retired: set<string>, retiredStems: set<string>)
    returns (r: Result<(Unreferenced, GcResult), VersionError>, ghost stackRoles: map<string, set<string>>)
    requires ValidCatalog(c) && (forall x :: x in roles <==> x in c.roles)
    requires host.pool.Some? ==> Lists(listing, host.pool.value) && Lists(again, host.pool.value)
    modifies host
    ensures r.Ok? <==> (forall n :: n in topo.nodes ==> topo.nodes[n] in c.roles) && Complete(c, stackRoles)
    ensures (forall n :: n in topo.nodes ==> topo.nodes[n] in c.roles) ==> RolesOf(topo, stackRoles)
    ensures r.Err? ==> unchanged(host)
    ensures r.Ok? ==> forall n :: n in r.value.0.removed <==>
              && Candidate(old(host.pool), old(host.registered), old(host.caches), roles, retired, n)
              && !Resolvable(c, stackRoles, n) && !StemInUse(old(host.pool), n)
    ensures r.Ok? ==> forall records, node, box ::
              NodeBoots(topo, c, records, node, box) && RecordsSupported(topo, c, records) ==> Kept(
                old(host.pool), old(host.registered), old(host.current), retiredStems, host.pool, host.registered, r.value.0, box.name)
  {
    hide ValidCatalog, RolesOf, Resolvable, Candidate, StemInUse, NodeBoots, FleetOf, Box, AllPicks, RecordsSupported, Kept;
    var byStack := StackRoles(topo, c);
    if byStack.Err? {
      r, stackRoles := Err(byStack.error), map[];
      return;
    }
    stackRoles := byStack.value;
    if Complete(c, stackRoles) {
      AnyHostComplete(c, facts, stackRoles);
    }
    var fleet := BuildFleet(c, facts, byStack.value);
    if fleet.Err? {
      r := Err(fleet.error);
      return;
    }
    var protected := ResolvableBoxNames(c, facts, byStack.value, fleet.value);
    if protected.Err? {
      r := Err(protected.error);
      return;
    }
    var u, collected := host.CollectUnreferenced(listing, again, roles, protected.value, retired, retiredStems);
    r := Ok((u, collected));
    forall records, node, box | NodeBoots(topo, c, records, node, box) && RecordsSupported(topo, c, records)
      ensures Kept(old(host.pool), old(host.registered), old(host.current), retiredStems, host.pool, host.registered, u, box.name)
    {
      BootedIsResolvable(topo, c, records, stackRoles, node, box);
      StillKept(old(host.pool), old(host.registered), old(host.current), retiredStems, host.pool, host.registered, host.current, u, box.name);
    }
  }

  /** The box stays: its registration, and every image of it that a plain collection keeps. */
  ghost predicate Kept(
      was: Option<Pool>, registered: set<string>, current: Current, retiredStems: set<string>,
      now: Option<Pool>, registered': set<string>, u: Unreferenced, box: string) {
    && box !in u.removed && (box in registered ==> box in registered')
    && forall n :: was.Some? && Keep(was.value, current, retiredStems, n) && StemOf(n) == box ==> now.Some? && n in now.value
  }

  lemma {:induction false} StillKept(
      was: Option<Pool>, registered: set<string>, current: Current, retiredStems: set<string>,
      now: Option<Pool>, registered': set<string>, current': Current, u: Unreferenced, box: string)
    requires box !in u.removed && registered' == registered - u.removed && current' == current - u.removed
    requires now.Some? == was.Some?
    requires was.Some? ==> now == Some(Collect(was.value, current', retiredStems + u.removed))
    ensures Kept(was, registered, current, retiredStems, now, registered', u, box)
  {
    hide ParseImage, Newest, InUse;
  }

  /** With every selection's box, a host's fleet resolves too. */
  lemma {:induction false} AnyHostComplete(c: Catalog, facts: Facts, stackRoles: map<string, set<string>>)
    requires Complete(c, stackRoles)
    ensures forall s :: s in stackRoles ==> s in c.stacks
    ensures forall p :: p in AllPicks(c, Some(facts), stackRoles) ==> Box(c, p.0, p.1).Ok?
  {
    hide Box, Selects;
    forall p | p in AllPicks(c, Some(facts), stackRoles) ensures Box(c, p.0, p.1).Ok? {
      AnyHost(c, facts, stackRoles, p.0, p.1);
      assert (p.0, p.1) in AllPicks(c, None, stackRoles);
    }
  }

  /** A box a node boots is one the catalog resolves. */
  lemma {:induction false} BootedIsResolvable(
      topo: Topo, c: Catalog, records: map<string, OsRef>, stackRoles: map<string, set<string>>, node: string, box: BoxEntry)
    requires ValidCatalog(c) && RolesOf(topo, stackRoles) && RecordsSupported(topo, c, records)
    requires NodeBoots(topo, c, records, node, box)
    ensures Resolvable(c, stackRoles, box.name)
  {
    hide ValidCatalog, RolesOf, Offers, SharedOs;
    BootedIsSelected(topo, c, records, stackRoles, node, box);
    assert Selects(c, None, stackRoles, box.role, box.os) && box.name == BoxName(box.role, box.os);
  }
}
