/** Where the lab's promises end: for each, the topologies on which a run breaks it. */
module LabLimits {
  import opened Wrappers
  import opened BoxNames
  import opened Topology
  import opened Versions
  import opened Destroy
  import opened LabRun

  ghost predicate Reached(topo: Topo, lever: bool, lab: Lab) {
    exists labs, cmds :: EndsAt(topo, lever, labs, cmds, lab)
  }

  /** A run from an empty lab that ends in this state. */
  ghost predicate EndsAt(topo: Topo, lever: bool, labs: seq<Lab>, cmds: seq<Command>, lab: Lab) {
    Run(topo, lever, labs, cmds) && Empty(labs[0]) && labs[|labs| - 1] == lab
  }

  // ----- a catalog that renders ---------------------------------------------------------

  const UBUNTU := OsRef("ubuntu", 1)
  const RHEL := OsRef("rhel", 1)
  const ANY_HOST := Facts("", false)

  const OPEN_ROLE := Role(map["ubuntu" := "", "rhel" := ""], false)

  function DefaultOs(topo: Topo, s: string): OsRef
    requires s in topo.stacks
  {
    OsRef(topo.stacks[s].osFamily, 1)
  }

  /** Two OSes any host runs, every role baked for both, each stack on its own family. */
  function OpenCatalog(topo: Topo): Catalog {
    var roles := topo.nodes.Values + set r | r in SHARED_ROLES;
    Catalog(
      map[UBUNTU := OsEntry("", None, false), RHEL := OsEntry("", None, false)],
      map r | r in roles :: OPEN_ROLE,
      UBUNTU,
      UBUNTU,
      map s | s in topo.stacks :: StackVersions([DefaultOs(topo, s)], DefaultOs(topo, s)))
  }

  lemma {:induction false} OpenBox(topo: Topo, role: string, os: OsRef)
    requires (role in SHARED_ROLES || role in topo.nodes.Values) && os in {UBUNTU, RHEL}
    ensures Box(OpenCatalog(topo), role, os).Ok? && Box(OpenCatalog(topo), role, os).value.os == os
  {
    hide BoxName;
  }

  lemma {:induction false} OpenIsValid(topo: Topo)
    requires Renderable(topo)
    ensures ValidCatalog(OpenCatalog(topo))
  {
    hide Box, Owns;
    var c := OpenCatalog(topo);
    forall s | s in c.stacks ensures ValidStack(c, c.stacks[s]) {
      assert topo.stacks[s].osFamily in FAMILIES;
    }
    forall r | r in SHARED_ROLES ensures SharedOs(c, r).Ok? && Box(c, r, SharedOs(c, r).value).Ok? {
      OpenBox(topo, r, UBUNTU);
    }
  }

  lemma {:induction false} OpenGrants(topo: Topo, lab: Lab, s: string)
    requires Renderable(topo) && lab.catalog == OpenCatalog(topo) && s in topo.stacks && s !in lab.records
    ensures Granted(topo, lab, s, NoConfig, ANY_HOST)
            == if StackLive(topo, lab.guests, s) then Err(LiveWithoutRecord) else Ok(DefaultOs(topo, s))
  {
    hide StackLive, Owns;
    assert topo.stacks[s].osFamily in FAMILIES;
  }

  /** The OS each node boots under that catalog. */
  ghost function OpenOs(topo: Topo, n: string): OsRef
    requires Renderable(topo) && n in topo.nodes
  {
    if topo.nodes[n] in SHARED_ROLES then UBUNTU
    else
      var s :| SoleOwner(topo, s, n);
      DefaultOs(topo, s)
  }

  lemma {:induction false} OpenRenders(topo: Topo, records: map<string, OsRef>)
    requires Renderable(topo) && forall s :: s in records ==> s in topo.stacks && records[s] == DefaultOs(topo, s)
    ensures Rendered(topo, OpenCatalog(topo), records, map n | n in topo.nodes :: OpenOs(topo, n))
  {
    hide Owns, Box;
    var c := OpenCatalog(topo);
    var os := map n | n in topo.nodes :: OpenOs(topo, n);
    forall s | s in topo.stacks ensures StackRef(c, records, s) == Ok(DefaultOs(topo, s)) && FamilyAgrees(topo, c, records, s) {
    }
    forall n | n in os ensures exists b :: NodeBoots(topo, c, records, n, b) && b.os == os[n] {
      assert topo.nodes[n] in topo.nodes.Values;
      var b := OpenNodeBox(topo, records, n);
    }
  }

  lemma {:induction false} OpenNodeBox(topo: Topo, records: map<string, OsRef>, n: string) returns (b: BoxEntry)
    requires Renderable(topo) && n in topo.nodes && topo.nodes[n] in topo.nodes.Values
    requires forall s :: s in topo.stacks ==> StackRef(OpenCatalog(topo), records, s) == Ok(DefaultOs(topo, s))
    ensures NodeBoots(topo, OpenCatalog(topo), records, n, b) && b.os == OpenOs(topo, n)
  {
    hide Box, Owns, OpenCatalog, StackRef;
    var role, os := topo.nodes[n], OpenOs(topo, n);
    if role in SHARED_ROLES {
      OpenShared(topo, role);
    } else {
      forall s | SoleOwner(topo, s, n) ensures s in topo.stacks {
        OwnerIsStack(topo, s, n);
      }
      var s :| SoleOwner(topo, s, n) && s in topo.stacks && os == DefaultOs(topo, s);
      assert topo.stacks[s].osFamily in FAMILIES;
    }
    OpenBox(topo, role, os);
    b := Box(OpenCatalog(topo), role, os).value;
  }

  lemma {:induction false} OpenShared(topo: Topo, role: string)
    requires role in SHARED_ROLES
    ensures SharedOs(OpenCatalog(topo), role) == Ok(UBUNTU)
  {
  }

  lemma {:induction false} OwnerIsStack(topo: Topo, s: string, n: string)
    requires Owns(topo, s, n)
    ensures s in topo.stacks && n in Members(topo, s)
  {
  }

  // ----- the first boot -----------------------------------------------------------------

  ghost function EmptyLab(topo: Topo): Lab { Lab(Guests(map[], map[]), map[], OpenCatalog(topo), false) }

  /** One guest up, the record of the stack that was brought up, and huge pages or none. */
  ghost function BootedLab(topo: Topo, s: string, x: string, pages: bool): Lab
    requires Renderable(topo) && s in topo.stacks && x in topo.nodes
  {
    var os := OpenOs(topo, x);
    Lab(Guests(map[x := Domain("running", os)], map[x := os]), map[s := DefaultOs(topo, s)], OpenCatalog(topo), pages)
  }

  /** The first bring-up of a stack can define any one of its VMs. */
  lemma {:induction false} FirstBoot(topo: Topo, lever: bool, s: string, x: string, pages: bool)
    requires Renderable(topo) && s in topo.stacks && x in topo.nodes && x in AllVms(topo, s, false) && (pages ==> lever)
    ensures Reached(topo, lever, BootedLab(topo, s, x, pages))
  {
    hide AllVms, Rendered, Booted, Renderable, ValidCatalog, OpenCatalog, OpenOs, Granted;
    var lab, lab' := EmptyLab(topo), BootedLab(topo, s, x, pages);
    OpenIsValid(topo);
    OpenGrants(topo, lab, s);
    assert Granted(topo, lab, s, NoConfig, ANY_HOST) == Ok(DefaultOs(topo, s));
    var os := map n | n in topo.nodes :: OpenOs(topo, n);
    OpenRenders(topo, lab'.records);
    var all := AllVms(topo, s, false);
    OneUp(all, os, x);
    assert lab.records[s := DefaultOs(topo, s)] == lab'.records;
    var cmd := Bootstrap(s, NoConfig, ANY_HOST, false, true, map[x := Up]);
    assert Next(topo, lever, lab, cmd, lab');
    assert EndsAt(topo, lever, [lab, lab'], [cmd], lab');
  }

  lemma {:induction false} OneUp(all: seq<string>, os: map<string, OsRef>, x: string)
    requires x in all && x in os
    ensures Booted(Guests(map[], map[]), Guests(map[x := Domain("running", os[x])], map[x := os[x]]), all, all, os, map[x := Up])
  {
  }

  // ----- pinning ------------------------------------------------------------------------

  /** Another stack's bring-up starts a stack guest it finds in the commons, without a record. */
  lemma {:induction false} CommonsGuestUnpins(topo: Topo, lever: bool, s: string, u: string, x: string)
    requires Renderable(topo) && StackGuest(topo, s, x) && x in Commons(topo) && u in topo.stacks && u != s
    ensures Reached(topo, lever, BootedLab(topo, u, x, false)) && !Pinned(topo, BootedLab(topo, u, x, false))
  {
    hide Renderable, Commons, Reached, OpenCatalog, OpenOs, Owns;
    assert x in AllVms(topo, u, false);
    FirstBoot(topo, lever, u, x, false);
    assert !PinnedAt(topo, BootedLab(topo, u, x, false), s, x);
  }

  /** Exactly when every run keeps every stack guest pinned. */
  lemma {:induction false} PinnedIff(topo: Topo)
    ensures (forall lever, lab :: Reached(topo, lever, lab) ==> Pinned(topo, lab)) <==> SharedCommons(topo)
  {
    hide Run, Pinned, Renderable, StackGuest, Commons;
    if SharedCommons(topo) {
      hide SharedCommons;
      forall lever, lab | Reached(topo, lever, lab) ensures Pinned(topo, lab) {
        var labs, cmds :| EndsAt(topo, lever, labs, cmds, lab);
        RunLength(topo, lever, labs, cmds);
        AlwaysPinned(topo, lever, labs, cmds, |labs| - 1);
      }
    } else {
      var s, u, x :| StackGuest(topo, s, x) && u in topo.stacks && u != s && x in Commons(topo);
      GuestIsNode(topo, s, x);
      CommonsGuestUnpins(topo, false, s, u, x);
    }
  }

  lemma {:induction false} GuestIsNode(topo: Topo, s: string, x: string)
    requires StackGuest(topo, s, x)
    ensures x in topo.nodes
  {
  }

  lemma {:induction false} RunLength(topo: Topo, lever: bool, labs: seq<Lab>, cmds: seq<Command>)
    requires Run(topo, lever, labs, cmds)
    ensures |labs| >= 1
  {
  }

  lemma {:induction false} RunMore(topo: Topo, lever: bool, labs: seq<Lab>, cmds: seq<Command>, cmd: Command, lab': Lab)
    requires Run(topo, lever, labs, cmds) && Next(topo, lever, labs[|labs| - 1], cmd, lab')
    ensures Run(topo, lever, labs + [lab'], cmds + [cmd])
  {
    hide Next;
    var more, last := labs + [lab'], cmds + [cmd];
    forall i | 0 <= i < |last| ensures Next(topo, lever, more[i], last[i], more[i + 1]) {
      assert more[i] == labs[i];
    }
  }

  /** A topology on which it fails: stack `a`'s guest is also a commons host. */
  lemma {:induction false} OwnedCommons() returns (topo: Topo)
    ensures Renderable(topo) && !SharedCommons(topo)
  {
    var a, b := StackCfg(["g"], [], true, "rhel"), StackCfg([], [], true, "rhel");
    topo := Topo(map["x" := "qm"], map["g" := ["x"]], map["a" := a, "b" := b], ["g"]);
    hide Hosts, Unique;
    OneGroup(topo, "g", "x");
    NoGroup(topo);
    SharedRoles();
    SoleIs(topo, "a", "x");
    assert StackGuest(topo, "a", "x") && "x" in Commons(topo) && "b" in topo.stacks && "b" != "a";
  }

  lemma {:induction false} SharedRoles()
    ensures "obs" in SHARED_ROLES && "qm" !in SHARED_ROLES
  {
    assert SHARED_ROLES[1] == "obs";
  }

  lemma {:induction false} SoleIs(topo: Topo, s: string, n: string)
    requires Owns(topo, s, n) && forall u :: u in topo.stacks && u != s ==> !Owns(topo, u, n)
    ensures SoleOwner(topo, s, n)
  {
    hide Hosts;
  }

  lemma {:induction false} OneGroup(topo: Topo, g: string, x: string)
    requires g in topo.groups && topo.groups[g] == [x]
    ensures Hosts(topo, [g]) == [x]
  {
    assert [g][..0] == [];
  }

  lemma {:induction false} NoGroup(topo: Topo)
    ensures Hosts(topo, []) == []
  {
  }

  // ----- the record gate ----------------------------------------------------------------

  /** A stack's bring-up starts another's member, whose own bring-up is then refused. */
  lemma {:induction false} SharedMemberRefused(topo: Topo, lever: bool, s: string, u: string, x: string)
    requires Renderable(topo) && s in topo.stacks && u in topo.stacks && s != u
    requires x in topo.nodes && x in Members(topo, u) && x in AllVms(topo, s, false)
    ensures var lab := BootedLab(topo, s, x, false);
            && Reached(topo, lever, lab) && !Recorded(topo, lab)
            && Granted(topo, lab, u, NoConfig, ANY_HOST) == Err(LiveWithoutRecord)
  {
    hide Renderable, Members, AllVms, Reached, OpenCatalog, OpenOs, Granted;
    FirstBoot(topo, lever, s, x, false);
    var lab := BootedLab(topo, s, x, false);
    assert !RecordedAt(topo, lab, u, x);
    assert Live(lab.guests, x);
    OpenGrants(topo, lab, u);
  }

  /** The refusal of a live stack without a record arises. */
  ghost predicate Refused(topo: Topo, lab: Lab) {
    exists stack, request, facts :: Granted(topo, lab, stack, request, facts) == Err(LiveWithoutRecord)
  }

  /** Exactly when every run keeps a record for every stack with a defined member, and exactly
      when no run meets that refusal. */
  lemma {:induction false} RecordedIff(topo: Topo)
    ensures (forall lever, lab :: Reached(topo, lever, lab) ==> Recorded(topo, lab)) <==> Apart(topo)
    ensures (forall lever, lab :: Reached(topo, lever, lab) ==> !Refused(topo, lab)) <==> Apart(topo)
  {
    hide Run, Recorded, Renderable, Members, AllVms, Granted;
    if Apart(topo) {
      hide Apart;
      forall lever, lab | Reached(topo, lever, lab) ensures Recorded(topo, lab) && !Refused(topo, lab) {
        var labs, cmds :| EndsAt(topo, lever, labs, cmds, lab);
        RunLength(topo, lever, labs, cmds);
        AlwaysRecorded(topo, lever, labs, cmds, |labs| - 1);
        forall stack, request, facts ensures Granted(topo, lab, stack, request, facts) != Err(LiveWithoutRecord) {
          GateNeverFires(topo, lever, labs, cmds, |labs| - 1, stack, request, facts);
        }
      }
    } else {
      var s, u, x :| s in topo.stacks && u in topo.stacks && s != u && x in topo.nodes && x in Members(topo, u) && x in AllVms(topo, s, false);
      SharedMemberRefused(topo, false, s, u, x);
    }
  }

  /** A topology on which it fails: two stacks list the same shared-role node. */
  lemma {:induction false} ListedTwice() returns (topo: Topo)
    ensures Renderable(topo) && !Apart(topo)
  {
    var cfg := StackCfg(["g"], [], true, "rhel");
    topo := Topo(map["x" := "obs"], map["g" := ["x"]], map["a" := cfg, "b" := cfg], []);
    hide Hosts, Unique, Commons;
    OneGroup(topo, "g", "x");
    SharedRoles();
    assert Renderable(topo);
    hide Renderable;
    assert "x" in Members(topo, "a") && "x" in Members(topo, "b");
    hide Members;
    assert "x" in AllVms(topo, "a", false) && "a" in topo.stacks && "b" in topo.stacks && "a" != "b" && "x" in topo.nodes;
  }

  // ----- huge pages ---------------------------------------------------------------------

  /** A step of a run after which the huge pages are no longer reserved. */
  ghost predicate PagesFall(topo: Topo, lever: bool, lab: Lab, cmd: Command, lab': Lab) {
    Reached(topo, lever, lab) && Next(topo, lever, lab, cmd, lab') && lab.pages && !lab'.pages
  }

  /** A teardown that overlooks another stack's live member releases the pages under it. */
  lemma {:induction false} OverlookedGuest(topo: Topo, s: string, u: string, x: string)
    returns (lab: Lab, cmd: Command, lab': Lab)
    requires Renderable(topo) && s in topo.stacks && u in topo.stacks && x in topo.nodes
    requires x in Members(topo, u) && !Counted(topo, s, x)
    ensures PagesFall(topo, true, lab, cmd, lab') && SomeGuestLive(topo, lab'.guests)
  {
    hide Renderable, Hosts, Commons, AllVms, Reached, OpenCatalog, OpenOs, Plan, Execs, Granted;
    MemberIsVm(topo, u, x);
    FirstBoot(topo, true, u, x, true);
    lab := BootedLab(topo, u, x, true);
    var plan := TeardownPlan(topo, lab.guests, s, false, true);
    cmd := Teardown(s, false, |plan|, true);
    OverlookedIsLast(topo, lab.guests, s, x);
    lab' := lab.(guests := Without(lab.guests, set y | y in Doomed(topo, lab.guests, s, false, true)), records := lab.records - {s}, pages := false);
    DoomedDistinct(topo, lab.guests, s, false, true);
    PlanRuns(lab.guests, Doomed(topo, lab.guests, s, false, true));
    assert plan[..|plan|] == plan;
    assert Live(lab'.guests, x) && StackLive(topo, lab'.guests, u);
  }

  lemma {:induction false} OverlookedIsLast(topo: Topo, g: Guests, s: string, x: string)
    requires s in topo.stacks && !Counted(topo, s, x) && forall y :: y in g.domains ==> y == x
    ensures LastDown(topo, g, s, false, true) && x !in Doomed(topo, g, s, false, true)
  {
    hide Hosts, Commons;
  }

  /** Exactly when no run releases huge pages under a live guest. */
  lemma {:induction false} PagesIff(topo: Topo)
    ensures (forall lever, lab, cmd, lab' :: PagesFall(topo, lever, lab, cmd, lab') ==> !SomeGuestLive(topo, lab'.guests))
            <==> AllCounted(topo)
  {
    hide Next, SomeGuestLive, Renderable, Members, Counted, Empty;
    if AllCounted(topo) {
      hide AllCounted;
      forall lever, lab, cmd, lab' | PagesFall(topo, lever, lab, cmd, lab') ensures !SomeGuestLive(topo, lab'.guests) {
        var labs, cmds :| EndsAt(topo, lever, labs, cmds, lab);
        RunMore(topo, lever, labs, cmds, cmd, lab');
        PagesFallWhenIdle(topo, lever, labs + [lab'], cmds + [cmd], |cmds|);
      }
    } else {
      var s, u, x :| s in topo.stacks && u in topo.stacks && x in topo.nodes && x in Members(topo, u) && !Counted(topo, s, x);
      var lab, cmd, lab' := OverlookedGuest(topo, s, u, x);
    }
  }

  /** A topology on which it fails: the stack of the node has no cluster group. */
  lemma {:induction false} UncountedStack() returns (topo: Topo)
    ensures Renderable(topo) && !AllCounted(topo)
  {
    var a, b := StackCfg(["g"], [], false, "rhel"), StackCfg([], [], true, "rhel");
    topo := Topo(map["x" := "qm"], map["g" := ["x"]], map["a" := a, "b" := b], []);
    hide Hosts, Unique;
    OneGroup(topo, "g", "x");
    NoGroup(topo);
    SoleIs(topo, "a", "x");
    assert Renderable(topo);
    hide Renderable;
    assert "x" in Members(topo, "a") && "x" !in Members(topo, "b") && "x" !in Commons(topo);
    hide Members, Commons;
    assert "x" !in AllVms(topo, "b", false);
    assert !Counted(topo, "b", "x") && "a" in topo.stacks && "b" in topo.stacks && "x" in topo.nodes;
  }

  // ----- boxes the catalog resolves -----------------------------------------------------

  lemma {:induction false} ReachedNext(topo: Topo, lever: bool, lab: Lab, cmd: Command, lab': Lab)
    requires Reached(topo, lever, lab) && Next(topo, lever, lab, cmd, lab')
    ensures Reached(topo, lever, lab')
  {
    hide Next, Empty;
    var labs, cmds :| EndsAt(topo, lever, labs, cmds, lab);
    RunMore(topo, lever, labs, cmds, cmd, lab');
    assert EndsAt(topo, lever, labs + [lab'], cmds + [cmd], lab');
  }

  const UBUNTU2 := OsRef("ubuntu", 2)
  const RHEL2 := OsRef("rhel", 2)

  function LaterOs(topo: Topo, s: string): OsRef
    requires s in topo.stacks
  {
    OsRef(topo.stacks[s].osFamily, 2)
  }

  /** The same catalog after every stack moved to the next major. */
  function LaterCatalog(topo: Topo): Catalog {
    var entry := OsEntry("", None, false);
    OpenCatalog(topo).(
      oses := map[UBUNTU := entry, RHEL := entry, UBUNTU2 := entry, RHEL2 := entry],
      stacks := map s | s in topo.stacks :: StackVersions([LaterOs(topo, s)], LaterOs(topo, s)))
  }

  lemma {:induction false} LaterBox(topo: Topo, role: string, os: OsRef)
    requires (role in SHARED_ROLES || role in topo.nodes.Values) && os in {UBUNTU, RHEL}
    ensures var b := Box(LaterCatalog(topo), role, os);
            b.Ok? && b.value.os == os && b.value.role == role && b.value.name == BoxName(role, os)
  {
    hide BoxName;
  }

  lemma {:induction false} LaterIsValid(topo: Topo)
    requires Renderable(topo)
    ensures ValidCatalog(LaterCatalog(topo))
  {
    hide Box, Owns;
    var c := LaterCatalog(topo);
    forall s | s in c.stacks ensures ValidStack(c, c.stacks[s]) {
      assert topo.stacks[s].osFamily in FAMILIES;
    }
    forall r | r in SHARED_ROLES ensures SharedOs(c, r).Ok? && Box(c, r, SharedOs(c, r).value).Ok? {
      LaterBox(topo, r, UBUNTU);
    }
  }

  /** A stack guest keeps its record when the catalog drops that OS; its box is then one the
      catalog resolves for no selection. */
  lemma {:induction false} DroppedOs(topo: Topo, lever: bool, s: string, x: string) returns (lab: Lab, box: BoxEntry)
    requires Renderable(topo) && StackGuest(topo, s, x)
    ensures Reached(topo, lever, lab) && ValidCatalog(lab.catalog) && NodeBoots(topo, lab.catalog, lab.records, x, box)
    ensures forall stackRoles, table :: RolesOf(topo, stackRoles) && TableOf(lab.catalog, AllPicks(lab.catalog, None, stackRoles), table) ==>
              box.name !in table
  {
    hide AllVms, Reached, OpenCatalog, LaterCatalog, ValidCatalog, Box, TableOf, AllPicks, RolesOf, StackHasRole;
    hide NodeBoots, OpenOs, Hosts;
    OwnerIsStack(topo, s, x);
    MemberIsVm(topo, s, x);
    FirstBoot(topo, lever, s, x, false);
    LaterIsValid(topo);
    var c := LaterCatalog(topo);
    lab := BootedLab(topo, s, x, false).(catalog := c);
    ReachedNext(topo, lever, BootedLab(topo, s, x, false), Flip(c), lab);
    box := OldBox(topo, lab.records, s, x);
    forall stackRoles, table | RolesOf(topo, stackRoles) && TableOf(c, AllPicks(c, None, stackRoles), table) ensures box.name !in table {
      NodeBoxResolvableIff(topo, c, lab.records, stackRoles, table, x, box);
      LaterSupports(topo);
    }
  }

  lemma {:induction false} MemberIsVm(topo: Topo, s: string, x: string)
    requires s in topo.stacks && x in Members(topo, s)
    ensures x in AllVms(topo, s, false)
  {
    hide Members, Commons;
  }

  lemma {:induction false} LaterSupports(topo: Topo)
    ensures forall u :: u in LaterCatalog(topo).stacks ==> forall os :: os in LaterCatalog(topo).stacks[u].supported ==> os.major == 2
  {
    hide OpenCatalog;
  }

  lemma {:induction false} OldBox(topo: Topo, records: map<string, OsRef>, s: string, x: string) returns (box: BoxEntry)
    requires Renderable(topo) && StackGuest(topo, s, x) && s in topo.stacks && records == map[s := DefaultOs(topo, s)]
    ensures NodeBoots(topo, LaterCatalog(topo), records, x, box)
    ensures box.role !in SHARED_ROLES && box.os.major == 1
  {
    hide Box, Owns, LaterCatalog, BoxName;
    var role, os := topo.nodes[x], DefaultOs(topo, s);
    assert topo.stacks[s].osFamily in FAMILIES && role in topo.nodes.Values;
    LaterBox(topo, role, os);
    box := Box(LaterCatalog(topo), role, os).value;
    var o :| SoleOwner(topo, o, x);
    assert o == s;
  }
}
