/** The OS version layer: which box each topology node boots, which boxes the catalog can
    resolve at all, and which of them a host builds. */
module Versions {
  import opened Wrappers
  import opened Text
  import opened BoxNames
  import opened Topology

  datatype OsEntry = OsEntry(baseBox: string, archPin: Option<string>, needsV3: bool)

  /** `bake` gives the bake stem per OS family. */
  datatype Role = Role(bake: map<string, string>, mqBearing: bool)

  datatype StackVersions = StackVersions(supported: seq<OsRef>, default: OsRef)

  datatype Catalog = Catalog(
    oses: map<OsRef, OsEntry>, roles: map<string, Role>, infra: OsRef, infraMq: OsRef, stacks: map<string, StackVersions>)

  datatype Facts = Facts(arch: string, v3: bool)

  datatype BoxEntry = BoxEntry(name: string, role: string, os: OsRef, bakeStem: string, mqBearing: bool)

  datatype VersionError =
    | UnknownRole(role: string)
    | UnknownOs(os: OsRef)
    | NoBake(role: string, family: string)
    | UnknownStack(stack: string)
    | WrongFamily(stack: string, os: OsRef)
    | NotSupported(stack: string, os: OsRef)
    | WrongArch(os: OsRef)
    | NeedsV3(os: OsRef)
    | NotShared(role: string)
    | BadOwners(node: string)

  const INFRA_ROLES: seq<string> := ["infra", "obs", "san"]
  const INFRA_MQ_ROLES: seq<string> := ["mq-client"]
  const SHARED_ROLES: seq<string> := INFRA_ROLES + INFRA_MQ_ROLES

  // ----- lookups ------------------------------------------------------------------------

  /** The generated box of a role on an OS. */
  function Box(c: Catalog, role: string, os: OsRef): Result<BoxEntry, VersionError> {
    if role !in c.roles then Err(UnknownRole(role))
    else if os !in c.oses then Err(UnknownOs(os))
    else if os.family !in c.roles[role].bake then Err(NoBake(role, os.family))
    else Ok(BoxEntry(BoxName(role, os), role, os, c.roles[role].bake[os.family], c.roles[role].mqBearing))
  }

  /** The OS a shared role boots. */
  function SharedOs(c: Catalog, role: string): Result<OsRef, VersionError> {
    if role in INFRA_MQ_ROLES then Ok(c.infraMq) else if role in INFRA_ROLES then Ok(c.infra) else Err(NotShared(role))
  }

  predicate ArchOk(e: OsEntry, facts: Facts) { e.archPin == None || e.archPin == Some(facts.arch) }

  predicate HostCanRun(e: OsEntry, facts: Facts) { ArchOk(e, facts) && (e.needsV3 ==> facts.v3) }

  /** The OS a stack builds on: the requested one, or its default. */
  function StackOs(c: Catalog, stack: string, request: Option<OsRef>, facts: Facts): Result<OsRef, VersionError> {
    if stack !in c.stacks then Err(UnknownStack(stack))
    else
      var spec := c.stacks[stack];
      var os := if request.Some? then request.value else spec.default;
      if os.family != spec.default.family then Err(WrongFamily(stack, os))
      else if os !in spec.supported then Err(NotSupported(stack, os))
      else if os !in c.oses then Err(UnknownOs(os))
      else if !ArchOk(c.oses[os], facts) then Err(WrongArch(os))
      else if c.oses[os].needsV3 && !facts.v3 then Err(NeedsV3(os))
      else Ok(os)
  }

  /** What loading a catalog validates. */
  ghost predicate ValidCatalog(c: Catalog) {
    && (forall os :: os in c.oses ==> KnownOs(os))
    && (forall s :: s in c.stacks ==> ValidStack(c, c.stacks[s]))
    && (forall r :: r in SHARED_ROLES ==> SharedOs(c, r).Ok? && Box(c, r, SharedOs(c, r).value).Ok?)
  }

  ghost predicate ValidStack(c: Catalog, s: StackVersions) {
    && s.default in s.supported
    && forall os :: os in s.supported ==> os in c.oses && os.family == s.default.family
  }

  /** A request is granted exactly when the stack supports it and the host can run it. */
  lemma {:induction false} StackOsIff(c: Catalog, stack: string, request: Option<OsRef>, facts: Facts, os: OsRef)
    requires ValidCatalog(c)
    ensures StackOs(c, stack, request, facts) == Ok(os) <==>
            && stack in c.stacks && os == (if request.Some? then request.value else c.stacks[stack].default)
            && os in c.stacks[stack].supported && HostCanRun(c.oses[os], facts)
  {
    if stack in c.stacks {
      assert ValidStack(c, c.stacks[stack]);
    }
  }

  // ----- every box the catalog resolves -------------------------------------------------

  /** Some selection picks this role on this OS. No `facts` means no host filter. */
  ghost predicate Selects(
      c: Catalog, facts: Option<Facts>, stackRoles: map<string, set<string>>, role: string, os: OsRef) {
    || (role in SHARED_ROLES && SharedOs(c, role) == Ok(os))
    || (exists s :: s in stackRoles && s in c.stacks && Offers(c, facts, stackRoles[s], s, role, os))
  }

  ghost predicate Offers(c: Catalog, facts: Option<Facts>, roles: set<string>, stack: string, role: string, os: OsRef)
    requires stack in c.stacks
  {
    role in roles && os in c.stacks[stack].supported && Runs(c, facts, os)
  }

  predicate Runs(c: Catalog, facts: Option<Facts>, os: OsRef) {
    facts.None? || (os in c.oses && HostCanRun(c.oses[os], facts.value))
  }

  /** A selection, spelled out: a shared role on its one OS, or a stack's role on an OS the
      stack supports and, with a host given, the host can run. */
  ghost predicate Selected(
      c: Catalog, facts: Option<Facts>, stackRoles: map<string, set<string>>, role: string, os: OsRef) {
    || (role == "mq-client" && os == c.infraMq)
    || ((role == "infra" || role == "obs" || role == "san") && os == c.infra)
    || exists s :: && s in stackRoles && s in c.stacks && role in stackRoles[s] && os in c.stacks[s].supported
                   && (facts.Some? ==>
                         && os in c.oses && (c.oses[os].archPin == None || c.oses[os].archPin == Some(facts.value.arch))
                         && (c.oses[os].needsV3 ==> facts.value.v3))
  }

  lemma {:induction false} SelectsIff(
      c: Catalog, facts: Option<Facts>, stackRoles: map<string, set<string>>, role: string, os: OsRef)
    ensures Selects(c, facts, stackRoles, role, os) <==> Selected(c, facts, stackRoles, role, os)
  {
    SharedOsIff(c, role, os);
    hide SharedOs, SHARED_ROLES;
    if s :| s in stackRoles && s in c.stacks && Offers(c, facts, stackRoles[s], s, role, os) {
      assert role in stackRoles[s] && os in c.stacks[s].supported;
    }
    if Selected(c, facts, stackRoles, role, os) && !(role == "mq-client" && os == c.infraMq) && !((role == "infra" || role == "obs" || role == "san") && os == c.infra) {
      var s :| && s in stackRoles && s in c.stacks && role in stackRoles[s] && os in c.stacks[s].supported
               && (facts.Some? ==>
                     && os in c.oses && (c.oses[os].archPin == None || c.oses[os].archPin == Some(facts.value.arch))
                     && (c.oses[os].needsV3 ==> facts.value.v3));
      assert Offers(c, facts, stackRoles[s], s, role, os);
    }
  }

  /** The table holds exactly the boxes of the selections, each under its own name. */
  ghost predicate TableOf(c: Catalog, picks: iset<(string, OsRef)>, out: map<string, BoxEntry>) {
    && (forall n :: n in out ==> Picked(c, picks, n, out[n]))
    && (forall p :: p in picks ==> Listed(c, out, p))
  }

  ghost predicate Picked(c: Catalog, picks: iset<(string, OsRef)>, n: string, e: BoxEntry) {
    (e.role, e.os) in picks && Box(c, e.role, e.os) == Ok(e) && n == e.name
  }

  ghost predicate Listed(c: Catalog, out: map<string, BoxEntry>, p: (string, OsRef)) {
    Box(c, p.0, p.1).Ok? && BoxName(p.0, p.1) in out
  }

  /** De-duplicating by name loses no box: each selection has its own entry. */
  lemma {:induction false} TableLosesNothing(
      c: Catalog, picks: iset<(string, OsRef)>, out: map<string, BoxEntry>, role: string, os: OsRef)
    requires ValidCatalog(c) && TableOf(c, picks, out)
    ensures (role, os) in picks <==> Box(c, role, os).Ok? && BoxName(role, os) in out
    ensures (role, os) in picks ==> Box(c, role, os) == Ok(out[BoxName(role, os)])
  {
    hide BoxName, Box;
    BoxIs(c, role, os);
    if (role, os) in picks {
      assert Listed(c, out, (role, os));
    }
    if BoxName(role, os) in out && os in c.oses {
      var e := out[BoxName(role, os)];
      BoxIs(c, e.role, e.os);
      BoxNameInjective(role, os, e.role, e.os);
    }
  }

  lemma {:induction false} NextBox(
      c: Catalog, picks: iset<(string, OsRef)>, out: map<string, BoxEntry>, role: string, os: OsRef,
      next: map<string, BoxEntry>)
    requires TableOf(c, picks, out) && Box(c, role, os).Ok?
    requires var b := Box(c, role, os).value; next == if b.name in out then out else out[b.name := b]
    ensures TableOf(c, picks + iset{(role, os)}, next)
  {
    hide BoxName, Box;
    BoxIs(c, role, os);
  }

  method AddBox(c: Catalog, ghost picks: iset<(string, OsRef)>, out: map<string, BoxEntry>, role: string, os: OsRef)
    returns (r: Result<map<string, BoxEntry>, VersionError>)
    requires TableOf(c, picks, out)
    ensures r.Ok? <==> Box(c, role, os).Ok?
    ensures r.Ok? ==> TableOf(c, picks + iset{(role, os)}, r.value)
  {
    hide BoxName, Box, TableOf;
    var e := Box(c, role, os);
    match e {
      case Err(err) => r := Err(err);
      case Ok(box) =>
        r := Ok(if box.name in out then out else out[box.name := box]);
        NextBox(c, picks, out, role, os, r.value);
    }
  }

  lemma {:induction false} BoxIs(c: Catalog, role: string, os: OsRef)
    ensures Box(c, role, os).Ok? ==>
              var b := Box(c, role, os).value; b.role == role && b.os == os && b.name == BoxName(role, os)
    ensures Box(c, role, os).Ok? ==> os in c.oses
  {
    hide BoxName;
  }

  ghost function SharedPicks(c: Catalog, roles: seq<string>): iset<(string, OsRef)> {
    iset p: (string, OsRef) | p.0 in roles && SharedOs(c, p.0) == Ok(p.1)
  }

  ghost function StackPicks(
      c: Catalog, facts: Option<Facts>, stackRoles: map<string, set<string>>, stacks: set<string>): iset<(string, OsRef)> {
    iset p: (string, OsRef) | exists s :: s in stacks && s in stackRoles && s in c.stacks && Offers(c, facts, stackRoles[s], s, p.0, p.1)
  }

  ghost function AllPicks(
      c: Catalog, facts: Option<Facts>, stackRoles: map<string, set<string>>): iset<(string, OsRef)> {
    iset p: (string, OsRef) | Selects(c, facts, stackRoles, p.0, p.1)
  }

  /** Every buildable box on this host, or on any host, de-duplicated by name. */
  method AllBoxes(c: Catalog, facts: Option<Facts>, stackRoles: map<string, set<string>>)
    returns (r: Result<map<string, BoxEntry>, VersionError>)
    requires ValidCatalog(c)
    ensures r.Ok? <==> (forall s :: s in stackRoles ==> s in c.stacks)
                       && forall p :: p in AllPicks(c, facts, stackRoles) ==> Box(c, p.0, p.1).Ok?
    ensures r.Ok? ==> TableOf(c, AllPicks(c, facts, stackRoles), r.value)
  {
    hide ValidCatalog, Box, Offers, TableOf;
    SharedBoxes(c);
    var out := AddShared(c, SHARED_ROLES);
    var rest := stackRoles.Keys;
    ghost var done: set<string> := {};
    ghost var shared := SharedPicks(c, SHARED_ROLES);
    assert shared + StackPicks(c, facts, stackRoles, {}) == shared;
    while rest != {}
      invariant done !! rest && done + rest == stackRoles.Keys && forall s :: s in done ==> s in c.stacks
      invariant TableOf(c, shared + StackPicks(c, facts, stackRoles, done), out)
      decreases rest
    {
      var s :| s in rest;
      if s !in c.stacks {
        return Err(UnknownStack(s));
      }
      ghost var picks := shared + StackPicks(c, facts, stackRoles, done);
      var next := AddStack(c, facts, picks, out, s, stackRoles[s]);
      if next.Err? {
        r := next;
        ghost var p :| OfStack(c, facts, stackRoles[s], s, p) && Box(c, p.0, p.1).Err?;
        assert Selects(c, facts, stackRoles, p.0, p.1) by {
          OfStackOffers(c, facts, stackRoles[s], s, p);
        }
        assert p in AllPicks(c, facts, stackRoles);
        return;
      }
      out := next.value;
      MorePicks(c, facts, stackRoles, done, s);
      assert picks + StackPicks(c, facts, stackRoles, {s}) == shared + StackPicks(c, facts, stackRoles, done + {s});
      done, rest := done + {s}, rest - {s};
    }
    r := Ok(out);
    PicksAreAll(c, facts, stackRoles);
    TableBoxes(c, AllPicks(c, facts, stackRoles), out);
  }

  lemma {:induction false} TableBoxes(c: Catalog, picks: iset<(string, OsRef)>, out: map<string, BoxEntry>)
    requires TableOf(c, picks, out)
    ensures forall p :: p in picks ==> Box(c, p.0, p.1).Ok?
  {
  }

  ghost predicate OfStack(c: Catalog, facts: Option<Facts>, roles: set<string>, s: string, p: (string, OsRef))
    requires s in c.stacks
  {
    Offers(c, facts, roles, s, p.0, p.1)
  }

  lemma {:induction false} OfStackOffers(
      c: Catalog, facts: Option<Facts>, roles: set<string>, s: string, p: (string, OsRef))
    requires s in c.stacks && OfStack(c, facts, roles, s, p)
    ensures Offers(c, facts, roles, s, p.0, p.1)
  {
  }

  lemma {:induction false} MorePicks(
      c: Catalog, facts: Option<Facts>, stackRoles: map<string, set<string>>, done: set<string>, s: string)
    requires s in stackRoles && s in c.stacks
    ensures StackPicks(c, facts, stackRoles, done + {s}) == StackPicks(c, facts, stackRoles, done) + StackPicks(c, facts, stackRoles, {s})
    ensures StackPicks(c, facts, stackRoles, {s}) == iset p: (string, OsRef) | OfStack(c, facts, stackRoles[s], s, p)
  {
    hide Runs;
    forall p: (string, OsRef) ensures p in StackPicks(c, facts, stackRoles, {s}) <==> OfStack(c, facts, stackRoles[s], s, p) {
      if OfStack(c, facts, stackRoles[s], s, p) {
        assert s in {s} && Offers(c, facts, stackRoles[s], s, p.0, p.1);
      }
    }
  }

  lemma {:induction false} PicksAreAll(c: Catalog, facts: Option<Facts>, stackRoles: map<string, set<string>>)
    ensures SharedPicks(c, SHARED_ROLES) + StackPicks(c, facts, stackRoles, stackRoles.Keys) == AllPicks(c, facts, stackRoles)
  {
    hide Offers;
  }

  lemma {:induction false} SharedBoxes(c: Catalog)
    requires ValidCatalog(c)
    ensures forall role :: role in SHARED_ROLES ==> SharedOs(c, role).Ok? && Box(c, role, SharedOs(c, role).value).Ok?
  {
  }

  lemma {:induction false} EmptyTable(c: Catalog)
    ensures TableOf(c, SharedPicks(c, []), map[])
  {
  }

  lemma {:induction false} NextPick(c: Catalog, roles: seq<string>, role: string)
    requires SharedOs(c, role).Ok?
    ensures SharedPicks(c, roles + [role]) == SharedPicks(c, roles) + iset{(role, SharedOs(c, role).value)}
  {
    hide SharedOs;
  }

  /** Adds the shared roles to an empty table. */
  method AddShared(c: Catalog, roles: seq<string>) returns (out: map<string, BoxEntry>)
    requires forall role :: role in roles ==> SharedOs(c, role).Ok? && Box(c, role, SharedOs(c, role).value).Ok?
    ensures TableOf(c, SharedPicks(c, roles), out)
  {
    hide Box, SharedOs, TableOf, SharedPicks;
    out := map[];
    EmptyTable(c);
    assert roles[..0] == [];
    for i := 0 to |roles|
      invariant TableOf(c, SharedPicks(c, roles[..i]), out)
    {
      var role := roles[i];
      assert role in roles;
      var os := SharedOs(c, role).value;
      var next := AddBox(c, SharedPicks(c, roles[..i]), out, role, os);
      NextPick(c, roles[..i], role);
      assert roles[..i + 1] == roles[..i] + [role];
      out := next.value;
    }
    assert roles[..|roles|] == roles;
  }

  /** Adds what one stack offers on this host, or fails on a box that does not exist. */
  method AddStack(
      c: Catalog, facts: Option<Facts>, ghost picks: iset<(string, OsRef)>, table: map<string, BoxEntry>,
      s: string, roles: set<string>)
    returns (r: Result<map<string, BoxEntry>, VersionError>)
    requires ValidCatalog(c) && s in c.stacks && TableOf(c, picks, table)
    ensures r.Err? ==> exists p: (string, OsRef) :: OfStack(c, facts, roles, s, p) && Box(c, p.0, p.1).Err?
    ensures r.Ok? ==> TableOf(c, picks + (iset p: (string, OsRef) | OfStack(c, facts, roles, s, p)), r.value)
  {
    hide TableOf, Box, BoxName, HostCanRun;
    var out, supported := table, c.stacks[s].supported;
    assert ValidStack(c, c.stacks[s]);
    ghost var now := picks;
    for i := 0 to |supported|
      invariant TableOf(c, now, out)
      invariant now == picks + iset p: (string, OsRef) | p.0 in roles && p.1 in supported[..i] && Runs(c, facts, p.1)
    {
      var os := supported[i];
      assert supported[..i + 1] == supported[..i] + [os];
      if facts.Some? && !HostCanRun(c.oses[os], facts.value) {
        continue;
      }
      var rest := roles;
      ghost var before := now;
      while rest != {}
        invariant rest <= roles && TableOf(c, now, out)
        invariant now == before + iset p: (string, OsRef) | p.0 in roles - rest && p.1 == os
        decreases rest
      {
        var role :| role in rest;
        var next := AddBox(c, now, out, role, os);
        if next.Err? {
          assert OfStack(c, facts, roles, s, (role, os));
          return next;
        }
        out, rest, now := next.value, rest - {role}, now + iset{(role, os)};
      }
    }
    assert supported[..|supported|] == supported;
    assert now == picks + iset p: (string, OsRef) | OfStack(c, facts, roles, s, p);
    r := Ok(out);
  }

  // ----- what each node boots -----------------------------------------------------------

  /** A recorded OS wins over the catalog default. */
  function StackRef(c: Catalog, records: map<string, OsRef>, stack: string): Result<OsRef, VersionError> {
    if stack in records then Ok(records[stack])
    else if stack in c.stacks then Ok(c.stacks[stack].default)
    else Err(UnknownStack(stack))
  }

  /** The box roles a stack's member nodes declare, shared roles aside. */
  ghost predicate StackHasRole(topo: Topo, stack: string, role: string) {
    role !in SHARED_ROLES && exists node :: node in topo.nodes && topo.nodes[node] == role && Owns(topo, stack, node)
  }

  ghost predicate SoleOwner(topo: Topo, stack: string, node: string) {
    Owns(topo, stack, node) && forall s :: Owns(topo, s, node) ==> s == stack
  }

  /** The box one node boots. */
  ghost predicate NodeBoots(topo: Topo, c: Catalog, records: map<string, OsRef>, node: string, box: BoxEntry) {
    && node in topo.nodes
    && var role := topo.nodes[node];
       if role in SHARED_ROLES then SharedOs(c, role).Ok? && Box(c, role, SharedOs(c, role).value) == Ok(box)
       else exists s :: SoleOwner(topo, s, node) && StackRef(c, records, s).Ok? && Box(c, role, StackRef(c, records, s).value) == Ok(box)
  }

  /** The topology's declared family agrees with the stack's OS. */
  predicate FamilyAgrees(topo: Topo, c: Catalog, records: map<string, OsRef>, s: string)
    requires s in topo.stacks
  {
    StackRef(c, records, s).Ok? && topo.stacks[s].osFamily == StackRef(c, records, s).value.family
  }

  /** The only stack whose groups list the node. */
  ghost predicate OnlyStack(topo: Topo, s: string, n: string) {
    && s in topo.stacks && InGroups(topo, topo.stacks[s].groups, n)
    && forall u :: u in topo.stacks && InGroups(topo, topo.stacks[u].groups, n) ==> u == s
  }

  /** The OS a node runs: the infra OS, the infra MQ OS for an MQ client, or its stack's: the
      one recorded, else the default. */
  ghost predicate NodeOs(topo: Topo, c: Catalog, records: map<string, OsRef>, n: string, os: OsRef)
    requires n in topo.nodes
  {
    var role := topo.nodes[n];
    if role == "mq-client" then os == c.infraMq
    else if role == "infra" || role == "obs" || role == "san" then os == c.infra
    else exists s :: OnlyStack(topo, s, n) && (if s in records then os == records[s] else s in c.stacks && os == c.stacks[s].default)
  }

  /** A role's box on an OS, as the catalog lists it. */
  ghost predicate CatalogBox(c: Catalog, role: string, os: OsRef, b: BoxEntry) {
    && role in c.roles && os in c.oses && os.family in c.roles[role].bake
    && b.role == role && b.os == os && b.name == role + "-" + os.family + Decimal(os.major)
    && b.bakeStem == c.roles[role].bake[os.family] && b.mqBearing == c.roles[role].mqBearing
  }

  lemma {:induction false} BoxIff(c: Catalog, role: string, os: OsRef, b: BoxEntry)
    ensures Box(c, role, os) == Ok(b) <==> CatalogBox(c, role, os, b)
  {
    hide Decimal;
    assert role + "-" + (os.family + Decimal(os.major)) == role + "-" + os.family + Decimal(os.major);
  }

  lemma {:induction false} SharedOsIff(c: Catalog, role: string, os: OsRef)
    ensures SharedOs(c, role) == Ok(os) <==>
            (role == "mq-client" && os == c.infraMq) || ((role == "infra" || role == "obs" || role == "san") && os == c.infra)
    ensures role in SHARED_ROLES <==> role == "mq-client" || role == "infra" || role == "obs" || role == "san"
  {
    assert INFRA_ROLES[0] == "infra" && INFRA_ROLES[1] == "obs" && INFRA_ROLES[2] == "san" && INFRA_MQ_ROLES[0] == "mq-client";
    assert forall r :: r in SHARED_ROLES <==> r in INFRA_ROLES || r in INFRA_MQ_ROLES;
  }

  lemma {:induction false} SoleOwnerIff(topo: Topo, s: string, n: string)
    ensures SoleOwner(topo, s, n) <==> OnlyStack(topo, s, n)
  {
    hide Hosts, InGroups;
    forall u | u in topo.stacks ensures Owns(topo, u, n) <==> InGroups(topo, topo.stacks[u].groups, n) {
      InHosts(topo, topo.stacks[u].groups, n);
    }
  }

  lemma {:induction false} NodeBootsIff(topo: Topo, c: Catalog, records: map<string, OsRef>, n: string, b: BoxEntry)
    requires n in topo.nodes
    ensures NodeBoots(topo, c, records, n, b) <==> CatalogBox(c, topo.nodes[n], b.os, b) && NodeOs(topo, c, records, n, b.os)
  {
    hide Box, CatalogBox, SharedOs, SoleOwner, OnlyStack, SHARED_ROLES;
    var role := topo.nodes[n];
    SharedOsIff(c, role, b.os);
    BoxIff(c, role, b.os, b);
    forall os | Box(c, role, os) == Ok(b) ensures os == b.os {
      BoxIff(c, role, os, b);
      CatalogBoxOs(c, role, os, b);
    }
    forall s ensures SoleOwner(topo, s, n) <==> OnlyStack(topo, s, n) {
      SoleOwnerIff(topo, s, n);
    }
  }

  lemma {:induction false} CatalogBoxOs(c: Catalog, role: string, os: OsRef, b: BoxEntry)
    requires CatalogBox(c, role, os, b)
    ensures os == b.os
  {
  }

  method Owners(topo: Topo, node: string) returns (owners: set<string>)
    ensures forall s :: s in owners <==> Owns(topo, s, node)
  {
    owners := {};
    var rest := topo.stacks.Keys;
    while rest != {}
      invariant rest <= topo.stacks.Keys
      invariant forall s :: s in owners <==> Owns(topo, s, node) && s !in rest
      decreases rest
    {
      var s :| s in rest;
      rest := rest - {s};
      var members := GroupMembers(topo, topo.stacks[s].groups);
      if node in members {
        owners := owners + {s};
      }
    }
  }

  method StackRefs(
      topo: Topo, c: Catalog, records: map<string, OsRef>) returns (r: Result<map<string, OsRef>, VersionError>)
    ensures r.Ok? <==> forall s :: s in topo.stacks ==> FamilyAgrees(topo, c, records, s)
    ensures r.Ok? ==> r.value.Keys == topo.stacks.Keys && forall s :: s in r.value ==> StackRef(c, records, s) == Ok(r.value[s])
  {
    var out: map<string, OsRef> := map[];
    var rest := topo.stacks.Keys;
    while rest != {}
      invariant out.Keys == topo.stacks.Keys - rest && rest <= topo.stacks.Keys
      invariant forall s :: s in out ==> StackRef(c, records, s) == Ok(out[s]) && FamilyAgrees(topo, c, records, s)
      decreases rest
    {
      var s :| s in rest;
      rest := rest - {s};
      var os := StackRef(c, records, s);
      match os {
        case Err(e) => return Err(e);
        case Ok(value) =>
          if topo.stacks[s].osFamily != value.family {
            return Err(WrongFamily(s, value));
          }
          out := out[s := value];
      }
    }
    return Ok(out);
  }

  /** The box of every topology node; no host gate here. */
  method NodeBoxes(
      topo: Topo, c: Catalog, records: map<string, OsRef>) returns (r: Result<map<string, BoxEntry>, VersionError>)
    requires ValidCatalog(c)
    ensures r.Ok? <==> (forall s :: s in topo.stacks ==> FamilyAgrees(topo, c, records, s))
                       && forall n :: n in topo.nodes ==> exists b :: NodeBoots(topo, c, records, n, b)
    ensures r.Ok? ==> r.value.Keys == topo.nodes.Keys && forall n :: n in r.value ==> NodeBoots(topo, c, records, n, r.value[n])
    ensures r.Ok? ==> forall n :: n in r.value ==>
              CatalogBox(c, topo.nodes[n], r.value[n].os, r.value[n]) && NodeOs(topo, c, records, n, r.value[n].os)
  {
    hide ValidCatalog, NodeBoots, FamilyAgrees, CatalogBox, NodeOs;
    var refs := StackRefs(topo, c, records);
    if refs.Err? {
      return Err(refs.error);
    }
    var out: map<string, BoxEntry> := map[];
    var rest := topo.nodes.Keys;
    while rest != {}
      invariant out.Keys == topo.nodes.Keys - rest && rest <= topo.nodes.Keys
      invariant forall n :: n in out ==> NodeBoots(topo, c, records, n, out[n])
      decreases rest
    {
      var n :| n in rest;
      rest := rest - {n};
      var box := NodeBox(topo, c, records, refs.value, n);
      match box {
        case Err(e) => return Err(e);
        case Ok(b) => out := out[n := b];
      }
    }
    assert forall n :: n in topo.nodes ==> NodeBoots(topo, c, records, n, out[n]);
    forall n | n in out ensures CatalogBox(c, topo.nodes[n], out[n].os, out[n]) && NodeOs(topo, c, records, n, out[n].os) {
      NodeBootsIff(topo, c, records, n, out[n]);
    }
    return Ok(out);
  }

  method NodeBox(topo: Topo, c: Catalog, ghost records: map<string, OsRef>, refs: map<string, OsRef>, node: string)
    returns (r: Result<BoxEntry, VersionError>)
    requires ValidCatalog(c) && node in topo.nodes && refs.Keys == topo.stacks.Keys
    requires forall s :: s in refs ==> StackRef(c, records, s) == Ok(refs[s])
    ensures r.Err? ==> forall b :: !NodeBoots(topo, c, records, node, b)
    ensures r.Ok? ==> NodeBoots(topo, c, records, node, r.value)
  {
    hide Box;
    var role := topo.nodes[node];
    if role !in c.roles {
      UnknownRoleHasNoBox(c, role);
      return Err(UnknownRole(role));
    }
    if role in SHARED_ROLES {
      return Box(c, role, SharedOs(c, role).value);
    }
    var owners := Owners(topo, node);
    if |owners| != 1 {
      forall s ensures !SoleOwner(topo, s, node) {
        if SoleOwner(topo, s, node) {
          SoleOwnerCounts(topo, s, node, owners);
        }
      }
      return Err(BadOwners(node));
    }
    var s :| s in owners;
    OnlyOne(owners, s);
    assert SoleOwner(topo, s, node);
    return Box(c, role, refs[s]);
  }

  lemma {:induction false} SoleOwnerCounts(topo: Topo, s: string, node: string, owners: set<string>)
    requires SoleOwner(topo, s, node) && forall o :: o in owners <==> Owns(topo, o, node)
    ensures |owners| == 1
  {
    assert owners == {s};
  }

  lemma {:induction false} UnknownRoleHasNoBox(c: Catalog, role: string)
    requires role !in c.roles
    ensures forall os :: Box(c, role, os).Err?
  {
  }

  lemma {:induction false} OnlyOne(owners: set<string>, s: string)
    requires |owners| == 1 && s in owners
    ensures owners == {s}
  {
    assert |owners - {s}| == 0;
  }

  // ----- the properties ----------------------------------------------------------------

  /** The stack roles are the topology's. */
  ghost predicate RolesOf(topo: Topo, stackRoles: map<string, set<string>>) {
    stackRoles.Keys == topo.stacks.Keys && forall s, role :: s in stackRoles ==> (role in stackRoles[s] <==> StackHasRole(topo, s, role))
  }

  /** Some node outside `rest` makes this one of the stack's roles. */
  ghost predicate Declares(topo: Topo, rest: set<string>, stack: string, role: string) {
    role !in SHARED_ROLES && exists node :: node in topo.nodes && node !in rest && topo.nodes[node] == role && Owns(topo, stack, node)
  }

  /** Collects each stack's box roles node by node; an unknown role is an error. */
  method StackRoles(topo: Topo, c: Catalog) returns (r: Result<map<string, set<string>>, VersionError>)
    ensures r.Ok? <==> forall n :: n in topo.nodes ==> topo.nodes[n] in c.roles
    ensures r.Ok? ==> RolesOf(topo, r.value)
  {
    hide Owns;
    var out: map<string, set<string>> := map s | s in topo.stacks :: {};
    var rest := topo.nodes.Keys;
    while rest != {}
      invariant rest <= topo.nodes.Keys && out.Keys == topo.stacks.Keys
      invariant forall n :: n in topo.nodes && n !in rest ==> topo.nodes[n] in c.roles
      invariant forall s, role :: s in out ==> (role in out[s] <==> Declares(topo, rest, s, role))
      decreases rest
    {
      var n :| n in rest;
      var role := topo.nodes[n];
      if role !in c.roles {
        return Err(UnknownRole(role));
      }
      ghost var before, left := out, rest;
      if role !in SHARED_ROLES {
        var owners := Owners(topo, n);
        out := map s | s in out :: if s in owners then out[s] + {role} else out[s];
      }
      rest := rest - {n};
      forall s, x | s in out ensures x in out[s] <==> Declares(topo, rest, s, x) {
        OneMoreNode(topo, left, n, s, x);
      }
    }
    r := Ok(out);
  }

  lemma {:induction false} OneMoreNode(topo: Topo, rest: set<string>, n: string, s: string, role: string)
    requires n in topo.nodes && n in rest
    ensures Declares(topo, rest - {n}, s, role)
            <==> Declares(topo, rest, s, role) || (role !in SHARED_ROLES && topo.nodes[n] == role && Owns(topo, s, n))
  {
    hide Owns;
  }

  /** Exactly when a node's box is one the catalog resolves: some stack that uses its role
      supports its OS. A shared-role node's always is. */
  lemma {:induction false} NodeBoxResolvableIff(
      topo: Topo, c: Catalog, records: map<string, OsRef>, stackRoles: map<string, set<string>>,
      table: map<string, BoxEntry>, node: string, box: BoxEntry)
    requires ValidCatalog(c) && RolesOf(topo, stackRoles) && TableOf(c, AllPicks(c, None, stackRoles), table)
    requires NodeBoots(topo, c, records, node, box)
    ensures box.name in table <==>
            || box.role in SHARED_ROLES
            || exists s :: s in topo.stacks && s in c.stacks && StackHasRole(topo, s, box.role) && box.os in c.stacks[s].supported
  {
    hide ValidCatalog, TableOf, RolesOf, NodeBoots, Selects, Box, BoxName, StackHasRole;
    NodeBoxSelectedIff(topo, c, records, stackRoles, node, box);
    TableLosesNothing(c, AllPicks(c, None, stackRoles), table, box.role, box.os);
    assert box.name in table <==> Selects(c, None, stackRoles, box.role, box.os);
  }

  lemma {:induction false} NodeBoxSelectedIff(
      topo: Topo, c: Catalog, records: map<string, OsRef>, stackRoles: map<string, set<string>>, node: string, box: BoxEntry)
    requires RolesOf(topo, stackRoles) && NodeBoots(topo, c, records, node, box)
    ensures Box(c, box.role, box.os) == Ok(box) && box.name == BoxName(box.role, box.os)
    ensures Selects(c, None, stackRoles, box.role, box.os) <==>
            || box.role in SHARED_ROLES
            || exists s :: s in topo.stacks && s in c.stacks && StackHasRole(topo, s, box.role) && box.os in c.stacks[s].supported
  {
    hide BoxName, StackHasRole, SoleOwner;
    if s :| s in topo.stacks && s in c.stacks && StackHasRole(topo, s, box.role) && box.os in c.stacks[s].supported {
      assert Offers(c, None, stackRoles[s], s, box.role, box.os);
    }
  }

  /** So every node's box is resolvable when each recorded OS is one its stack supports. */
  lemma {:induction false} NodeBoxesResolvable(
      topo: Topo, c: Catalog, records: map<string, OsRef>, stackRoles: map<string, set<string>>,
      table: map<string, BoxEntry>, node: string, box: BoxEntry)
    requires ValidCatalog(c) && RolesOf(topo, stackRoles) && TableOf(c, AllPicks(c, None, stackRoles), table)
    requires forall s :: s in topo.stacks ==> s in c.stacks && (s in records ==> records[s] in c.stacks[s].supported)
    requires NodeBoots(topo, c, records, node, box)
    ensures box.name in table && table[box.name] == box
  {
    hide Selects, TableOf, RolesOf, NodeBoots, ValidCatalog;
    BootedIsSelected(topo, c, records, stackRoles, node, box);
    TableLosesNothing(c, AllPicks(c, None, stackRoles), table, box.role, box.os);
    TableKeyed(c, AllPicks(c, None, stackRoles), table, box);
  }

  /** A supported record's node boots a box some selection picks. */
  lemma {:induction false} BootedIsSelected(
      topo: Topo, c: Catalog, records: map<string, OsRef>, stackRoles: map<string, set<string>>, node: string, box: BoxEntry)
    requires ValidCatalog(c) && RolesOf(topo, stackRoles) && NodeBoots(topo, c, records, node, box)
    requires forall s :: s in topo.stacks ==> s in c.stacks && (s in records ==> records[s] in c.stacks[s].supported)
    ensures Selects(c, None, stackRoles, box.role, box.os)
    ensures Box(c, box.role, box.os) == Ok(box) && box.name == BoxName(box.role, box.os)
  {
    hide Selects, RolesOf, BoxName;
    if box.role !in SHARED_ROLES {
      var s :| SoleOwner(topo, s, node) && StackRef(c, records, s).Ok? && Box(c, topo.nodes[node], StackRef(c, records, s).value) == Ok(box);
      assert ValidStack(c, c.stacks[s]);
      assert StackHasRole(topo, s, box.role);
    }
    NodeBoxSelectedIff(topo, c, records, stackRoles, node, box);
  }

  lemma {:induction false} TableKeyed(
      c: Catalog, picks: iset<(string, OsRef)>, table: map<string, BoxEntry>, box: BoxEntry)
    requires ValidCatalog(c) && TableOf(c, picks, table) && box.name in table && Box(c, box.role, box.os) == Ok(box)
    ensures table[box.name] == box
  {
    hide BoxName, Box;
    var e := table[box.name];
    BoxIs(c, box.role, box.os);
    BoxIs(c, e.role, e.os);
    BoxNameInjective(box.role, box.os, e.role, e.os);
  }

  // ----- the fleet and a build's boxes --------------------------------------------------

  /** A RHEL base box the host can run, or a box some selection picks on this host. */
  ghost predicate FleetOf(c: Catalog, facts: Facts, stackRoles: map<string, set<string>>, fleet: set<string>) {
    forall n :: n in fleet <==>
      || (exists os :: os in c.oses && os.family == "rhel" && HostCanRun(c.oses[os], facts) && n == c.oses[os].baseBox)
      || (exists role, os :: Selects(c, Some(facts), stackRoles, role, os) && n == BoxName(role, os))
  }

  /** The fleet's names: the RHEL base boxes the host can run, and every box it can build. */
  method BuildFleet(
      c: Catalog, facts: Facts, stackRoles: map<string, set<string>>) returns (r: Result<set<string>, VersionError>)
    requires ValidCatalog(c)
    ensures r.Ok? <==> (forall s :: s in stackRoles ==> s in c.stacks)
                       && forall p :: p in AllPicks(c, Some(facts), stackRoles) ==> Box(c, p.0, p.1).Ok?
    ensures r.Ok? ==> FleetOf(c, facts, stackRoles, r.value)
  {
    hide Selects, Box, HostCanRun, ValidCatalog, TableOf, AllPicks;
    var boxes := AllBoxes(c, Some(facts), stackRoles);
    match boxes {
      case Err(e) => return Err(e);
      case Ok(table) =>
        var bases := set os | os in c.oses && os.family == "rhel" && HostCanRun(c.oses[os], facts) :: c.oses[os].baseBox;
        r := Ok(bases + table.Keys);
        forall n ensures n in table <==> exists role, os :: Selects(c, Some(facts), stackRoles, role, os) && n == BoxName(role, os) {
          TableNames(c, Some(facts), stackRoles, table, n);
        }
    }
  }

  lemma {:induction false} TableNames(
      c: Catalog, facts: Option<Facts>, stackRoles: map<string, set<string>>, table: map<string, BoxEntry>,
      n: string)
    requires TableOf(c, AllPicks(c, facts, stackRoles), table)
    ensures n in table <==> exists role, os :: Selects(c, facts, stackRoles, role, os) && n == BoxName(role, os)
  {
    hide Selects, BoxName, Box;
    if n in table {
      BoxIs(c, table[n].role, table[n].os);
      assert (table[n].role, table[n].os) in AllPicks(c, facts, stackRoles);
      assert Selects(c, facts, stackRoles, table[n].role, table[n].os) && n == BoxName(table[n].role, table[n].os);
    }
    if role, os :| Selects(c, facts, stackRoles, role, os) && n == BoxName(role, os) {
      assert (role, os) in AllPicks(c, facts, stackRoles);
      assert Listed(c, table, (role, os));
    }
  }

  /** A name some selection resolves to on some host: a box, or an OS's base box. */
  ghost predicate Resolvable(c: Catalog, stackRoles: map<string, set<string>>, n: string) {
    || (exists os :: os in c.oses && n == c.oses[os].baseBox)
    || (exists role, os :: Selects(c, None, stackRoles, role, os) && n == BoxName(role, os))
  }

  /** Every name a catalog selection can resolve to, joined with this host's fleet. The fleet
      adds nothing: the result is what the catalog resolves, on any host. */
  method ResolvableBoxNames(c: Catalog, facts: Facts, stackRoles: map<string, set<string>>, fleet: set<string>)
    returns (r: Result<set<string>, VersionError>)
    requires ValidCatalog(c) && FleetOf(c, facts, stackRoles, fleet)
    ensures r.Ok? <==> (forall s :: s in stackRoles ==> s in c.stacks)
                       && forall p :: p in AllPicks(c, None, stackRoles) ==> Box(c, p.0, p.1).Ok?
    ensures r.Ok? ==> forall n :: n in r.value <==> Resolvable(c, stackRoles, n)
  {
    hide Selects, Box, HostCanRun, ValidCatalog, TableOf, FleetOf;
    var boxes := AllBoxes(c, None, stackRoles);
    match boxes {
      case Err(e) => return Err(e);
      case Ok(table) =>
        var bases := set os | os in c.oses :: c.oses[os].baseBox;
        r := Ok(table.Keys + bases + fleet);
        forall n ensures n in table <==> exists role, os :: Selects(c, None, stackRoles, role, os) && n == BoxName(role, os) {
          TableNames(c, None, stackRoles, table, n);
        }
        forall n | n in fleet ensures Resolvable(c, stackRoles, n) {
          FleetIsResolvable(c, facts, stackRoles, fleet, n);
        }
    }
  }

  lemma {:induction false} FleetIsResolvable(
      c: Catalog, facts: Facts, stackRoles: map<string, set<string>>, fleet: set<string>, n: string)
    requires FleetOf(c, facts, stackRoles, fleet) && n in fleet
    ensures Resolvable(c, stackRoles, n)
  {
    hide HostCanRun;
    if role, os :| Selects(c, Some(facts), stackRoles, role, os) && n == BoxName(role, os) {
      AnyHost(c, facts, stackRoles, role, os);
    }
  }

  /** What a host can select, the catalog can. */
  lemma {:induction false} AnyHost(
      c: Catalog, facts: Facts, stackRoles: map<string, set<string>>, role: string, os: OsRef)
    requires Selects(c, Some(facts), stackRoles, role, os)
    ensures Selects(c, None, stackRoles, role, os)
  {
    hide HostCanRun;
    if s :| s in stackRoles && s in c.stacks && Offers(c, Some(facts), stackRoles[s], s, role, os) {
      assert Offers(c, None, stackRoles[s], s, role, os);
    }
  }

  /** A build file's request covers this stack. */
  predicate Asked(c: Catalog, request: Option<OsRef>, facts: Facts, s: string)
    requires s in c.stacks
  {
    if request.None? then c.stacks[s].default in c.oses && HostCanRun(c.oses[c.stacks[s].default], facts)
    else request.value.family == c.stacks[s].default.family
  }

  /** A stack the build file covers is on an OS it may have, and all its boxes exist there. */
  ghost predicate Buildable(c: Catalog, request: Option<OsRef>, facts: Facts, roles: set<string>, s: string) {
    && s in c.stacks
    && (Asked(c, request, facts, s) ==>
          StackOs(c, s, request, facts).Ok? && forall role :: role in roles ==> Box(c, role, StackOs(c, s, request, facts).value).Ok?)
  }

  /** A covered stack's box, on the OS the stack builds on. */
  ghost predicate StackNeeds(
      c: Catalog, request: Option<OsRef>, facts: Facts, stackRoles: map<string, set<string>>, s: string, role: string, n: string) {
    && s in stackRoles && s in c.stacks && role in stackRoles[s] && Asked(c, request, facts, s)
    && StackOs(c, s, request, facts).Ok? && n == BoxName(role, StackOs(c, s, request, facts).value)
  }

  /** What the shared roles and the covered stacks in `done` need. */
  ghost predicate Needed(
      c: Catalog, request: Option<OsRef>, facts: Facts, stackRoles: map<string, set<string>>, done: set<string>, n: string) {
    || (exists role :: role in SHARED_ROLES && SharedOs(c, role).Ok? && n == BoxName(role, SharedOs(c, role).value))
    || (exists s, role :: s in done && StackNeeds(c, request, facts, stackRoles, s, role, n))
  }

  /** The host can run this OS. */
  ghost predicate RunsHere(c: Catalog, facts: Facts, os: OsRef) {
    && os in c.oses && (c.oses[os].archPin == None || c.oses[os].archPin == Some(facts.arch))
    && (c.oses[os].needsV3 ==> facts.v3)
  }

  /** The OS a build bakes a stack on: its default, when the host can run it and no OS is named;
      else the named one, when it is of the stack's family. */
  ghost predicate BuildsOn(c: Catalog, request: Option<OsRef>, facts: Facts, s: string, os: OsRef) {
    s in c.stacks
    && ((request == None && os == c.stacks[s].default && RunsHere(c, facts, os))
        || (request == Some(os) && os.family == c.stacks[s].default.family))
  }

  /** Every stack can be built: a named OS is one it supports and the host can run, and its roles
      have boxes on it. */
  ghost predicate CanBuild(c: Catalog, request: Option<OsRef>, facts: Facts, roles: set<string>, s: string) {
    s in c.stacks && forall os :: BuildsOn(c, request, facts, s, os) ==>
      os in c.stacks[s].supported && RunsHere(c, facts, os) && forall role :: role in roles ==> exists b :: CatalogBox(c, role, os, b)
  }

  /** The boxes of the shared roles, and of each stack's roles on the OS it is baked on. */
  ghost predicate Bakes(c: Catalog, request: Option<OsRef>, facts: Facts, stackRoles: map<string, set<string>>, n: string) {
    exists role, os :: Baked(c, request, facts, stackRoles, role, os) && n == role + "-" + os.family + Decimal(os.major)
  }

  ghost predicate Baked(
      c: Catalog, request: Option<OsRef>, facts: Facts, stackRoles: map<string, set<string>>, role: string, os: OsRef) {
    || (role == "mq-client" && os == c.infraMq)
    || ((role == "infra" || role == "obs" || role == "san") && os == c.infra)
    || exists s :: s in stackRoles && role in stackRoles[s] && BuildsOn(c, request, facts, s, os)
  }

  lemma {:induction false} BuildsOnIff(c: Catalog, request: Option<OsRef>, facts: Facts, s: string, os: OsRef)
    requires ValidCatalog(c) && s in c.stacks
    ensures BuildsOn(c, request, facts, s, os) <==>
            Asked(c, request, facts, s) && os == if request.Some? then request.value else c.stacks[s].default
    ensures StackOs(c, s, request, facts) == Ok(os) <==>
            (os == if request.Some? then request.value else c.stacks[s].default) && os in c.stacks[s].supported && RunsHere(c, facts, os)
  {
    StackOsIff(c, s, request, facts, os);
    assert ValidStack(c, c.stacks[s]);
  }

  lemma {:induction false} CanBuildIff(c: Catalog, request: Option<OsRef>, facts: Facts, roles: set<string>, s: string)
    requires ValidCatalog(c)
    ensures CanBuild(c, request, facts, roles, s) <==> Buildable(c, request, facts, roles, s)
  {
    hide ValidCatalog, Asked, StackOs, Box, CatalogBox, BuildsOn, RunsHere;
    if s in c.stacks {
      var os := if request.Some? then request.value else c.stacks[s].default;
      forall x ensures BuildsOn(c, request, facts, s, x) ==> x == os {
        BuildsOnIff(c, request, facts, s, x);
      }
      BuildsOnIff(c, request, facts, s, os);
      OnlyStackOs(c, request, facts, s);
      forall role ensures Box(c, role, os).Ok? <==> exists b :: CatalogBox(c, role, os, b) {
        HasBoxIff(c, role, os);
      }
    }
  }

  lemma {:induction false} OnlyStackOs(c: Catalog, request: Option<OsRef>, facts: Facts, s: string)
    requires ValidCatalog(c) && s in c.stacks
    ensures StackOs(c, s, request, facts).Ok? ==>
              StackOs(c, s, request, facts).value == if request.Some? then request.value else c.stacks[s].default
  {
  }

  lemma {:induction false} HasBoxIff(c: Catalog, role: string, os: OsRef)
    ensures Box(c, role, os).Ok? <==> exists b :: CatalogBox(c, role, os, b)
  {
    hide Box, CatalogBox;
    if Box(c, role, os).Ok? {
      BoxIff(c, role, os, Box(c, role, os).value);
    }
    if b :| CatalogBox(c, role, os, b) {
      BoxIff(c, role, os, b);
    }
  }

  lemma {:induction false} NeedsIff(
      c: Catalog, request: Option<OsRef>, facts: Facts, stackRoles: map<string, set<string>>, s: string, role: string, n: string)
    requires ValidCatalog(c) && (forall u :: u in stackRoles ==> Buildable(c, request, facts, stackRoles[u], u))
    ensures StackNeeds(c, request, facts, stackRoles, s, role, n) <==>
            s in stackRoles && role in stackRoles[s] && exists os :: BuildsOn(c, request, facts, s, os) && n == BoxName(role, os)
  {
    hide ValidCatalog, Asked, StackOs, Box, BuildsOn, BoxName;
    if s in stackRoles && s in c.stacks {
      assert Buildable(c, request, facts, stackRoles[s], s);
      var os := if request.Some? then request.value else c.stacks[s].default;
      forall x ensures BuildsOn(c, request, facts, s, x) <==> Asked(c, request, facts, s) && x == os {
        BuildsOnIff(c, request, facts, s, x);
      }
      OnlyStackOs(c, request, facts, s);
    }
    assert !(s in c.stacks) ==> forall os :: !BuildsOn(c, request, facts, s, os) by { Unbuilt(c, request, facts, s); }
  }

  lemma {:induction false} Unbuilt(c: Catalog, request: Option<OsRef>, facts: Facts, s: string)
    ensures s !in c.stacks ==> forall os :: !BuildsOn(c, request, facts, s, os)
  {
  }

  lemma {:induction false} NameIs(role: string, os: OsRef)
    ensures BoxName(role, os) == role + "-" + os.family + Decimal(os.major)
  {
    hide Decimal;
    assert role + "-" + (os.family + Decimal(os.major)) == role + "-" + os.family + Decimal(os.major);
  }

  lemma {:induction false} BakesIff(c: Catalog, request: Option<OsRef>, facts: Facts, stackRoles: map<string, set<string>>, n: string)
    requires ValidCatalog(c) && (forall s :: s in stackRoles ==> Buildable(c, request, facts, stackRoles[s], s))
    ensures Needed(c, request, facts, stackRoles, stackRoles.Keys, n) <==> Bakes(c, request, facts, stackRoles, n)
  {
    hide ValidCatalog, Buildable, StackNeeds, SharedOs, BuildsOn, BoxName, Decimal, SHARED_ROLES, Baked;
    if role :| role in SHARED_ROLES && SharedOs(c, role).Ok? && n == BoxName(role, SharedOs(c, role).value) {
      var os := SharedOs(c, role).value;
      SharedBaked(c, request, facts, stackRoles, role, os);
      NameIs(role, os);
      assert Baked(c, request, facts, stackRoles, role, os);
    }
    if s, role :| s in stackRoles.Keys && StackNeeds(c, request, facts, stackRoles, s, role, n) {
      NeedsIff(c, request, facts, stackRoles, s, role, n);
      var os :| BuildsOn(c, request, facts, s, os) && n == BoxName(role, os);
      NameIs(role, os);
      assert Baked(c, request, facts, stackRoles, role, os) by { StackBaked(c, request, facts, stackRoles, s, role, os); }
    }
    if role, os :| Baked(c, request, facts, stackRoles, role, os) && n == role + "-" + os.family + Decimal(os.major) {
      NameIs(role, os);
      SharedBaked(c, request, facts, stackRoles, role, os);
      if !(role in SHARED_ROLES && SharedOs(c, role) == Ok(os)) {
        var s := BakedFor(c, request, facts, stackRoles, role, os);
        NeedsIff(c, request, facts, stackRoles, s, role, n);
      }
    }
  }

  lemma {:induction false} SharedBaked(
      c: Catalog, request: Option<OsRef>, facts: Facts, stackRoles: map<string, set<string>>, role: string, os: OsRef)
    ensures role in SHARED_ROLES && SharedOs(c, role) == Ok(os) ==> Baked(c, request, facts, stackRoles, role, os)
  {
    SharedOsIff(c, role, os);
  }

  lemma {:induction false} StackBaked(
      c: Catalog, request: Option<OsRef>, facts: Facts, stackRoles: map<string, set<string>>, s: string, role: string, os: OsRef)
    requires s in stackRoles && role in stackRoles[s] && BuildsOn(c, request, facts, s, os)
    ensures Baked(c, request, facts, stackRoles, role, os)
  {
  }

  lemma {:induction false} BakedFor(
      c: Catalog, request: Option<OsRef>, facts: Facts, stackRoles: map<string, set<string>>, role: string, os: OsRef)
    returns (s: string)
    requires Baked(c, request, facts, stackRoles, role, os) && !(role in SHARED_ROLES && SharedOs(c, role) == Ok(os))
    ensures s in stackRoles && role in stackRoles[s] && BuildsOn(c, request, facts, s, os)
  {
    SharedOsIff(c, role, os);
    s :| s in stackRoles && role in stackRoles[s] && BuildsOn(c, request, facts, s, os);
  }

  /** What a build file makes the host bake, stack by stack; nothing outside its fleet. */
  method BoxesForBuild(c: Catalog, request: Option<OsRef>, facts: Facts, stackRoles: map<string, set<string>>)
    returns (r: Result<set<string>, VersionError>)
    requires ValidCatalog(c)
    ensures r.Ok? <==> forall s :: s in stackRoles ==> Buildable(c, request, facts, stackRoles[s], s)
    ensures r.Ok? ==> forall n :: n in r.value <==> Needed(c, request, facts, stackRoles, stackRoles.Keys, n)
    ensures r.Ok? ==> forall fleet :: FleetOf(c, facts, stackRoles, fleet) ==> r.value <= fleet
    ensures r.Ok? <==> forall s :: s in stackRoles ==> CanBuild(c, request, facts, stackRoles[s], s)
    ensures r.Ok? ==> forall n :: n in r.value <==> Bakes(c, request, facts, stackRoles, n)
  {
    hide HostCanRun, Box, BoxName, StackOs, Needed, FleetOf, ValidCatalog, CanBuild, Bakes;
    forall s | s in stackRoles ensures CanBuild(c, request, facts, stackRoles[s], s) <==> Buildable(c, request, facts, stackRoles[s], s) {
      CanBuildIff(c, request, facts, stackRoles[s], s);
    }
    if forall s :: s in stackRoles ==> Buildable(c, request, facts, stackRoles[s], s) {
      forall n ensures Needed(c, request, facts, stackRoles, stackRoles.Keys, n) <==> Bakes(c, request, facts, stackRoles, n) {
        BakesIff(c, request, facts, stackRoles, n);
      }
    }
    SharedBoxes(c);
    var names := set role | role in SHARED_ROLES :: BoxName(role, SharedOs(c, role).value);
    SharedNeeded(c, request, facts, stackRoles, names);
    var rest := stackRoles.Keys;
    assert stackRoles.Keys - rest == {};
    while rest != {}
      invariant rest <= stackRoles.Keys
      invariant forall s :: s in stackRoles && s !in rest ==> Buildable(c, request, facts, stackRoles[s], s)
      invariant forall n :: n in names <==> Needed(c, request, facts, stackRoles, stackRoles.Keys - rest, n)
      decreases rest
    {
      var s :| s in rest;
      ghost var done := stackRoles.Keys - rest;
      rest := rest - {s};
      assert stackRoles.Keys - rest == done + {s};
      if s !in c.stacks {
        return Err(UnknownStack(s));
      }
      var default := c.stacks[s].default;
      DefaultIsKnown(c, s);
      if (if request.None? then !HostCanRun(c.oses[default], facts) else request.value.family != default.family) {
        NothingNeeded(c, request, facts, stackRoles, done, s);
        continue;
      }
      var os := StackOs(c, s, request, facts);
      if os.Err? {
        return Err(os.error);
      }
      if role :| role in stackRoles[s] && Box(c, role, os.value).Err? {
        return Err(Box(c, role, os.value).error);
      }
      var added := set role | role in stackRoles[s] :: BoxName(role, os.value);
      MoreNeeded(c, request, facts, stackRoles, done, s, added);
      names := names + added;
    }
    assert stackRoles.Keys - {} == stackRoles.Keys;
    r := Ok(names);
    forall fleet, n | FleetOf(c, facts, stackRoles, fleet) && n in names ensures n in fleet {
      NeededIsInFleet(c, request, facts, stackRoles, fleet, n);
    }
  }

  lemma {:induction false} DefaultIsKnown(c: Catalog, s: string)
    requires ValidCatalog(c) && s in c.stacks
    ensures c.stacks[s].default in c.oses
  {
    assert ValidStack(c, c.stacks[s]);
  }

  lemma {:induction false} SharedNeeded(
      c: Catalog, request: Option<OsRef>, facts: Facts, stackRoles: map<string, set<string>>, names: set<string>)
    requires forall role :: role in SHARED_ROLES ==> SharedOs(c, role).Ok?
    requires names == set role | role in SHARED_ROLES :: BoxName(role, SharedOs(c, role).value)
    ensures forall n :: n in names <==> Needed(c, request, facts, stackRoles, {}, n)
  {
    hide BoxName, SharedOs, StackNeeds;
  }

  lemma {:induction false} NothingNeeded(
      c: Catalog, request: Option<OsRef>, facts: Facts, stackRoles: map<string, set<string>>, done: set<string>, s: string)
    requires s in c.stacks && !Asked(c, request, facts, s)
    ensures forall n :: Needed(c, request, facts, stackRoles, done + {s}, n) <==> Needed(c, request, facts, stackRoles, done, n)
  {
    hide BoxName, SharedOs, Asked, StackOs;
    forall role, n ensures !StackNeeds(c, request, facts, stackRoles, s, role, n) {
    }
    hide StackNeeds;
  }

  lemma {:induction false} MoreNeeded(
      c: Catalog, request: Option<OsRef>, facts: Facts, stackRoles: map<string, set<string>>, done: set<string>, s: string,
      added: set<string>)
    requires s in stackRoles && s in c.stacks && Asked(c, request, facts, s) && StackOs(c, s, request, facts).Ok?
    requires added == set role | role in stackRoles[s] :: BoxName(role, StackOs(c, s, request, facts).value)
    ensures forall n :: Needed(c, request, facts, stackRoles, done + {s}, n) <==> Needed(c, request, facts, stackRoles, done, n) || n in added
  {
    hide BoxName, SharedOs, Asked, StackOs;
    forall n ensures n in added <==> exists role :: StackNeeds(c, request, facts, stackRoles, s, role, n) {
      if n in added {
        var role :| role in stackRoles[s] && n == BoxName(role, StackOs(c, s, request, facts).value);
        assert StackNeeds(c, request, facts, stackRoles, s, role, n);
      }
    }
    hide StackNeeds;
  }

  lemma {:induction false} NeededIsInFleet(
      c: Catalog, request: Option<OsRef>, facts: Facts, stackRoles: map<string, set<string>>, fleet: set<string>, n: string)
    requires ValidCatalog(c) && FleetOf(c, facts, stackRoles, fleet) && Needed(c, request, facts, stackRoles, stackRoles.Keys, n)
    ensures n in fleet
  {
    hide BoxName, SharedOs, ValidCatalog, Asked, Offers;
    if role :| role in SHARED_ROLES && SharedOs(c, role).Ok? && n == BoxName(role, SharedOs(c, role).value) {
      assert Selects(c, Some(facts), stackRoles, role, SharedOs(c, role).value);
    } else {
      var s, role :| s in stackRoles && StackNeeds(c, request, facts, stackRoles, s, role, n);
      var os := StackOs(c, s, request, facts).value;
      GrantedIsOffered(c, request, facts, stackRoles, s, role, os);
      assert Selects(c, Some(facts), stackRoles, role, os);
    }
  }

  lemma {:induction false} GrantedIsOffered(
      c: Catalog, request: Option<OsRef>, facts: Facts, stackRoles: map<string, set<string>>, s: string, role: string, os: OsRef)
    requires ValidCatalog(c) && s in stackRoles && role in stackRoles[s] && StackOs(c, s, request, facts) == Ok(os)
    ensures s in c.stacks && Offers(c, Some(facts), stackRoles[s], s, role, os)
  {
    hide ValidCatalog;
    StackOsIff(c, s, request, facts, os);
  }
}
