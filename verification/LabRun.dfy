/** The lab as a state machine: bootstraps, teardowns that may fail part-way, catalog edits,
    guests powered or lost. What holds over every run of it. */
module LabRun {
  import opened Wrappers
  import opened BoxNames
  import opened Topology
  import opened Versions
  import opened Destroy

  /** `records` are the instance records; `pages` tells whether huge pages are reserved. */
  datatype Lab = Lab(guests: Guests, records: map<string, OsRef>, catalog: Catalog, pages: bool)

  /** No build file, or one that may name an OS. */
  datatype Request = NoConfig | Config(os: Option<OsRef>)

  datatype Refusal = Version(error: VersionError) | NoDrSite | LiveWithoutRecord | RunningAnother(os: OsRef)

  // ----- the record gate ----------------------------------------------------------------

  ghost predicate StackLive(topo: Topo, g: Guests, stack: string) {
    stack in topo.stacks && exists m :: m in Members(topo, stack) && Live(g, m)
  }

  /** What the request resolves to: the build file, else the record's OS, else the default. */
  function Wish(lab: Lab, stack: string, request: Request): Option<OsRef> {
    match request
    case Config(os) => os
    case NoConfig => if stack in lab.records then Some(lab.records[stack]) else None
  }

  /** The OS a bootstrap may run with. */
  ghost function Granted(topo: Topo, lab: Lab, stack: string, request: Request, facts: Facts): Result<OsRef, Refusal> {
    match StackOs(lab.catalog, stack, Wish(lab, stack, request), facts)
    case Err(e) => Err(Version(e))
    case Ok(os) =>
      if stack in lab.records then (if lab.records[stack] == os then Ok(os) else Err(RunningAnother(lab.records[stack])))
      else if StackLive(topo, lab.guests, stack) then Err(LiveWithoutRecord)
      else Ok(os)
  }

  /** The catalog lets the stack run this OS, and the host can. */
  ghost predicate Available(c: Catalog, stack: string, os: OsRef, facts: Facts) {
    && stack in c.stacks && os in c.stacks[stack].supported && os in c.oses
    && (c.oses[os].archPin == None || c.oses[os].archPin == Some(facts.arch)) && (c.oses[os].needsV3 ==> facts.v3)
  }

  /** No host of the stack's groups has a domain that is not shut off. */
  ghost predicate Idle(topo: Topo, g: Guests, stack: string)
    requires stack in topo.stacks
  {
    forall k, x :: k in topo.stacks[stack].groups && k in topo.groups && x in topo.groups[k] && x in g.domains ==> g.domains[x].raw == "shut off"
  }

  /** What a bring-up that wants this OS is told: a refusal when it is not available, another
      when the record names a different one, or when there is none and a host is up. */
  ghost predicate Answer(topo: Topo, lab: Lab, stack: string, os: OsRef, facts: Facts, r: Result<OsRef, Refusal>)
    requires stack in topo.stacks
  {
    if !Available(lab.catalog, stack, os, facts) then r.Err? && r.error.Version?
    else if stack in lab.records then r == if lab.records[stack] == os then Ok(os) else Err(RunningAnother(lab.records[stack]))
    else r == if Idle(topo, lab.guests, stack) then Ok(os) else Err(LiveWithoutRecord)
  }

  /** The OS a bring-up wants: the one the build file names, the default when the file names
      none, and without a file the record's, whatever the default has become. */
  ghost predicate Decides(topo: Topo, lab: Lab, stack: string, request: Request, facts: Facts, r: Result<OsRef, Refusal>)
    requires stack in topo.stacks
  {
    && (forall os :: request == Config(Some(os)) ==> Answer(topo, lab, stack, os, facts, r))
    && (request == NoConfig && stack in lab.records ==> Answer(topo, lab, stack, lab.records[stack], facts, r))
    && (request == Config(None) || (request == NoConfig && stack !in lab.records) ==>
          if stack in lab.catalog.stacks then Answer(topo, lab, stack, lab.catalog.stacks[stack].default, facts, r)
          else r == Err(Version(UnknownStack(stack))))
  }

  lemma {:induction false} IdleIff(topo: Topo, g: Guests, stack: string)
    requires stack in topo.stacks
    ensures Idle(topo, g, stack) <==> !StackLive(topo, g, stack)
  {
    hide Hosts;
    forall x ensures x in Members(topo, stack) <==> InGroups(topo, topo.stacks[stack].groups, x) {
      InHosts(topo, topo.stacks[stack].groups, x);
    }
    hide Members;
    if !Idle(topo, g, stack) {
      var k, x :| k in topo.stacks[stack].groups && k in topo.groups && x in topo.groups[k] && x in g.domains && g.domains[x].raw != "shut off";
      assert x in Members(topo, stack) && Live(g, x);
    }
  }

  /** What is granted is that decision. */
  lemma {:induction false} GrantDecides(topo: Topo, lab: Lab, stack: string, request: Request, facts: Facts)
    requires ValidCatalog(lab.catalog) && stack in topo.stacks
    ensures Decides(topo, lab, stack, request, facts, Granted(topo, lab, stack, request, facts))
  {
    hide StackLive, Idle, StackOs, ValidCatalog;
    IdleIff(topo, lab.guests, stack);
    var r := Granted(topo, lab, stack, request, facts);
    if request.Config? && request.os.Some? {
      OsAnswer(lab.catalog, stack, Some(request.os.value), request.os.value, facts);
    } else if request.NoConfig? && stack in lab.records {
      OsAnswer(lab.catalog, stack, Some(lab.records[stack]), lab.records[stack], facts);
    } else if stack in lab.catalog.stacks {
      OsAnswer(lab.catalog, stack, None, lab.catalog.stacks[stack].default, facts);
    } else {
      UnknownStackOs(lab.catalog, stack, facts);
    }
  }

  lemma {:induction false} OsAnswer(c: Catalog, stack: string, request: Option<OsRef>, os: OsRef, facts: Facts)
    requires ValidCatalog(c) && (request == Some(os) || (request == None && stack in c.stacks && os == c.stacks[stack].default))
    ensures if Available(c, stack, os, facts) then StackOs(c, stack, request, facts) == Ok(os) else StackOs(c, stack, request, facts).Err?
  {
    if stack in c.stacks {
      assert ValidStack(c, c.stacks[stack]);
    }
  }

  lemma {:induction false} UnknownStackOs(c: Catalog, stack: string, facts: Facts)
    requires stack !in c.stacks
    ensures StackOs(c, stack, None, facts) == Err(UnknownStack(stack))
  {
  }

  // ----- bring-up -----------------------------------------------------------------------

  /** How far `vagrant up` got with a guest before the run ended. */
  datatype Progress = DirOnly | Up

  /** The box OS the render gives each node, when it succeeds. */
  ghost predicate Rendered(topo: Topo, c: Catalog, records: map<string, OsRef>, os: map<string, OsRef>) {
    && (forall s :: s in topo.stacks ==> FamilyAgrees(topo, c, records, s))
    && os.Keys == topo.nodes.Keys && forall n :: n in os ==> exists b :: NodeBoots(topo, c, records, n, b) && b.os == os[n]
  }

  function DirAt(g: Guests, x: string): Option<OsRef> { if x in g.dirs then Some(g.dirs[x]) else None }

  function DomainAt(g: Guests, x: string): Option<Domain> { if x in g.domains then Some(g.domains[x]) else None }

  /** Vagrant forgets a machine directory whose box is not the one just rendered. */
  function FreshDir(g: Guests, all: seq<string>, os: map<string, OsRef>, x: string): Option<OsRef> {
    if x in all && x in os && DirAt(g, x) != Some(os[x]) then None else DirAt(g, x)
  }

  /** `vagrant up` of a new guest honours its machine directory over the rendered box. */
  function DirAfter(
      g: Guests, all: seq<string>, vms: seq<string>, os: map<string, OsRef>, progress: map<string, Progress>,
      x: string): Option<OsRef> {
    var dir := FreshDir(g, all, os, x);
    if x in vms && x in os && x in progress && x !in g.domains && dir == None then Some(os[x]) else dir
  }

  function DomainAfter(
      g: Guests, all: seq<string>, vms: seq<string>, os: map<string, OsRef>, progress: map<string, Progress>,
      x: string): Option<Domain> {
    if !(x in vms && x in os && x in progress && progress[x] == Up) then DomainAt(g, x)
    else if x !in g.domains then Some(Domain("running", DirAfter(g, all, vms, os, progress, x).value))
    else if FreshDir(g, all, os, x) == None then DomainAt(g, x)
    else Some(g.domains[x].(raw := "running"))
  }

  ghost predicate Booted(
      g: Guests, h: Guests, all: seq<string>, vms: seq<string>, os: map<string, OsRef>,
      progress: map<string, Progress>) {
    && (forall x :: DirAt(h, x) == DirAfter(g, all, vms, os, progress, x))
    && (forall x :: DomainAt(h, x) == DomainAfter(g, all, vms, os, progress, x))
  }

  /** Vagrant forgets this machine directory. */
  ghost predicate Stale(g: Guests, all: seq<string>, os: map<string, OsRef>, x: string) {
    x in all && x in os && x in g.dirs && g.dirs[x] != os[x]
  }

  /** Guest by guest: a directory is kept unless it remembers another box than the rendered one,
      and made for a new guest; a new guest boots what its directory says, and an existing one
      with a kept directory is started. */
  ghost predicate BootedAs(
      g: Guests, h: Guests, all: seq<string>, vms: seq<string>, os: map<string, OsRef>,
      progress: map<string, Progress>, x: string) {
    var kept, starts := x in g.dirs && !Stale(g, all, os, x), x in vms && x in os && x in progress;
    && (x in h.dirs <==> kept || (starts && x !in g.domains))
    && (x in h.dirs ==> h.dirs[x] == if kept then g.dirs[x] else os[x])
    && (x in h.domains <==> x in g.domains || (starts && progress[x] == Up))
    && (x in h.domains && x !in g.domains ==> h.domains[x] == Domain("running", if kept then g.dirs[x] else os[x]))
    && (x in g.domains && starts && progress[x] == Up && kept ==> h.domains[x] == Domain("running", g.domains[x].os))
    && (x in g.domains && !(starts && progress[x] == Up && kept) ==> h.domains[x] == g.domains[x])
  }

  lemma {:induction false} BootedIff(
      g: Guests, h: Guests, all: seq<string>, vms: seq<string>, os: map<string, OsRef>, progress: map<string, Progress>)
    ensures Booted(g, h, all, vms, os, progress) <==> forall x :: BootedAs(g, h, all, vms, os, progress, x)
  {
    hide Booted, BootedAs, DirAfter, DomainAfter;
    forall x ensures BootedAs(g, h, all, vms, os, progress, x)
                     <==> DirAt(h, x) == DirAfter(g, all, vms, os, progress, x) && DomainAt(h, x) == DomainAfter(g, all, vms, os, progress, x)
    {
      GuestBooted(g, h, all, vms, os, progress, x);
    }
    BootedBoth(g, h, all, vms, os, progress);
  }

  lemma {:induction false} BootedBoth(
      g: Guests, h: Guests, all: seq<string>, vms: seq<string>, os: map<string, OsRef>, progress: map<string, Progress>)
    ensures Booted(g, h, all, vms, os, progress) <==>
            forall x :: DirAt(h, x) == DirAfter(g, all, vms, os, progress, x) && DomainAt(h, x) == DomainAfter(g, all, vms, os, progress, x)
  {
    hide DirAt, DomainAt, DirAfter, DomainAfter;
  }

  lemma {:induction false} GuestBooted(
      g: Guests, h: Guests, all: seq<string>, vms: seq<string>, os: map<string, OsRef>,
      progress: map<string, Progress>, x: string)
    ensures BootedAs(g, h, all, vms, os, progress, x)
            <==> DirAt(h, x) == DirAfter(g, all, vms, os, progress, x) && DomainAt(h, x) == DomainAfter(g, all, vms, os, progress, x)
  {
  }

  // ----- teardown -----------------------------------------------------------------------

  /** Another stack with a cluster group has a live member. */
  ghost predicate OtherStacksUp(topo: Topo, g: Guests, exclude: string) {
    exists u :: u in topo.stacks && u != exclude && topo.stacks[u].clusterGroup && StackLive(topo, g, u)
  }

  ghost function CommonsVms(topo: Topo, stack: string): (r: seq<string>)
    requires stack in topo.stacks
    ensures forall x :: x in r <==> x in Commons(topo) && x !in Members(topo, stack)
  {
    Filter(AllVms(topo, stack, false), x => x !in Members(topo, stack))
  }

  ghost predicate LastDown(topo: Topo, g: Guests, stack: string, commons: bool, lever: bool) {
    (lever || !commons) && !OtherStacksUp(topo, g, stack)
  }

  /** The guests a teardown destroys. */
  ghost function Doomed(topo: Topo, g: Guests, stack: string, commons: bool, lever: bool): seq<string>
    requires stack in topo.stacks
  {
    Members(topo, stack) + if commons || LastDown(topo, g, stack, commons, lever) then CommonsVms(topo, stack) else []
  }

  ghost function TeardownPlan(topo: Topo, g: Guests, stack: string, commons: bool, lever: bool): seq<Step>
    requires stack in topo.stacks
  {
    Plan(Doomed(topo, g, stack, commons, lever), Probe(g), g.dirs.Keys)
  }

  /** A whole teardown takes this guest: a host of the stack's groups, or of the commons when they
      are asked for or no other stack with a cluster group has a live host. */
  ghost predicate Taken(topo: Topo, g: Guests, stack: string, commons: bool, x: string)
    requires stack in topo.stacks
  {
    || InGroups(topo, topo.stacks[stack].groups, x)
    || (InGroups(topo, topo.commons, x) && (commons || OthersIdle(topo, g, stack)))
  }

  ghost predicate OthersIdle(topo: Topo, g: Guests, stack: string) {
    forall u :: u in topo.stacks && u != stack && topo.stacks[u].clusterGroup ==> Idle(topo, g, u)
  }

  lemma {:induction false} OthersIdleIff(topo: Topo, g: Guests, stack: string)
    ensures OthersIdle(topo, g, stack) <==> !OtherStacksUp(topo, g, stack)
  {
    hide Idle, StackLive;
    forall u | u in topo.stacks ensures Idle(topo, g, u) <==> !StackLive(topo, g, u) {
      IdleIff(topo, g, u);
    }
  }

  lemma {:induction false} LastDownIff(topo: Topo, g: Guests, stack: string, commons: bool, lever: bool)
    ensures LastDown(topo, g, stack, commons, lever) <==> (lever || !commons) && OthersIdle(topo, g, stack)
  {
    hide OtherStacksUp, OthersIdle;
    OthersIdleIff(topo, g, stack);
  }

  lemma {:induction false} DoomedIff(topo: Topo, g: Guests, stack: string, commons: bool, lever: bool, x: string)
    requires stack in topo.stacks
    ensures x in Doomed(topo, g, stack, commons, lever) <==> Taken(topo, g, stack, commons, x)
  {
    hide Hosts, OtherStacksUp, OthersIdle;
    OthersIdleIff(topo, g, stack);
    InHosts(topo, topo.stacks[stack].groups, x);
    InHosts(topo, topo.commons, x);
  }

  /** What a whole teardown leaves, guest by guest. */
  ghost predicate TornDown(topo: Topo, g: Guests, stack: string, commons: bool, h: Guests)
    requires stack in topo.stacks
  {
    && (forall x :: x in h.domains <==> x in g.domains && !Taken(topo, g, stack, commons, x))
    && (forall x :: x in h.dirs <==> x in g.dirs && !Taken(topo, g, stack, commons, x))
    && (forall x :: x in h.domains ==> h.domains[x] == g.domains[x]) && forall x :: x in h.dirs ==> h.dirs[x] == g.dirs[x]
  }

  lemma {:induction false} WithoutDoomed(topo: Topo, g: Guests, stack: string, commons: bool, lever: bool)
    requires stack in topo.stacks
    ensures TornDown(topo, g, stack, commons, Without(g, set x | x in Doomed(topo, g, stack, commons, lever)))
  {
    hide Taken, Doomed;
    forall x ensures x in Doomed(topo, g, stack, commons, lever) <==> Taken(topo, g, stack, commons, x) {
      DoomedIff(topo, g, stack, commons, lever, x);
    }
  }

  // ----- commands -----------------------------------------------------------------------

  /** `vms` tells whether the run reached the vms phase; `ok` counts the destroy commands that
      ran before one failed for an outside reason; `released` whether the release play worked. */
  datatype Command =
    | Bootstrap(stack: string, request: Request, facts: Facts, noDr: bool, vms: bool, progress: map<string, Progress>)
    | Teardown(stack: string, commons: bool, ok: nat, released: bool)
    | Flip(catalog: Catalog)
    | Power(guest: string, raw: string)
    | Lose(guest: string)

  ghost predicate Next(topo: Topo, lever: bool, lab: Lab, cmd: Command, lab': Lab) {
    match cmd
    case Bootstrap(stack, request, facts, noDr, vms, progress) => BootstrapNext(topo, lever, lab, stack, request, facts, noDr, vms, progress, lab')
    case Teardown(stack, commons, ok, released) => TeardownNext(topo, lever, lab, stack, commons, ok, released, lab')
    case Flip(catalog) => ValidCatalog(catalog) && lab' == lab.(catalog := catalog)
    case Power(x, raw) => x in lab.guests.domains && lab' == lab.(guests := lab.guests.(domains := lab.guests.domains[x := lab.guests.domains[x].(raw := raw)]))
    case Lose(x) => lab' == lab.(guests := lab.guests.(domains := lab.guests.domains - {x}))
  }

  ghost predicate BootstrapNext(
      topo: Topo, lever: bool, lab: Lab, stack: string, request: Request, facts: Facts, noDr: bool, vms: bool,
      progress: map<string, Progress>, lab': Lab) {
    if stack !in topo.stacks || (noDr && topo.stacks[stack].drGroups == []) || Granted(topo, lab, stack, request, facts).Err? then lab' == lab
    else
      var records := lab.records[stack := Granted(topo, lab, stack, request, facts).value];
      && lab'.records == records && lab'.catalog == lab.catalog
      && (lab'.pages == lab.pages || (vms && lever && lab'.pages))
      && (lab'.guests == lab.guests
          || (vms && (exists os :: Rendered(topo, lab.catalog, records, os)
                                   && Booted(lab.guests, lab'.guests, AllVms(topo, stack, false), AllVms(topo, stack, noDr), os, progress))))
  }

  ghost predicate TeardownNext(
      topo: Topo, lever: bool, lab: Lab, stack: string, commons: bool, ok: nat, released: bool, lab': Lab) {
    if stack !in topo.stacks then lab' == lab
    else
      var plan := TeardownPlan(topo, lab.guests, stack, commons, lever);
      && lab'.catalog == lab.catalog
      && Execs(lab.guests, plan[..if ok < |plan| then ok else |plan|]) == Some(lab'.guests)
      && lab'.records == (if ok < |plan| then lab.records else lab.records - {stack})
      && lab'.pages == (lab.pages && !(ok >= |plan| && released && lever && LastDown(topo, lab.guests, stack, commons, lever)))
  }

  /** The states a run passes through, one more than its commands. */
  ghost predicate Run(topo: Topo, lever: bool, labs: seq<Lab>, cmds: seq<Command>) {
    |labs| == |cmds| + 1 && forall i :: 0 <= i < |cmds| ==> Next(topo, lever, labs[i], cmds[i], labs[i + 1])
  }

  ghost predicate Empty(lab: Lab) {
    lab.guests == Guests(map[], map[]) && lab.records == map[] && !lab.pages && ValidCatalog(lab.catalog)
  }

  // ----- what can render ----------------------------------------------------------------

  /** Some catalog can render the topology: every declared OS family is known, and every node
      has a shared role or a single stack that owns it. */
  ghost predicate Renderable(topo: Topo) {
    && (forall s :: s in topo.stacks ==> topo.stacks[s].osFamily in FAMILIES)
    && (forall n :: n in topo.nodes ==> topo.nodes[n] in SHARED_ROLES || exists s :: SoleOwner(topo, s, n))
  }

  ghost predicate Sound(lab: Lab) { ValidCatalog(lab.catalog) && AllKnown(lab.records) }

  ghost predicate AllKnown(records: map<string, OsRef>) { forall s :: s in records ==> KnownOs(records[s]) }

  lemma {:induction false} RenderedIsRenderable(
      topo: Topo, c: Catalog, records: map<string, OsRef>, os: map<string, OsRef>)
    requires ValidCatalog(c) && AllKnown(records) && Rendered(topo, c, records, os)
    ensures Renderable(topo)
  {
    hide Owns, Box;
    forall s | s in topo.stacks ensures topo.stacks[s].osFamily in FAMILIES {
      assert FamilyAgrees(topo, c, records, s);
      if s !in records {
        assert ValidStack(c, c.stacks[s]);
        assert c.stacks[s].default in c.oses;
      }
    }
    forall n | n in topo.nodes ensures topo.nodes[n] in SHARED_ROLES || exists s :: SoleOwner(topo, s, n) {
      assert n in os;
      var b :| NodeBoots(topo, c, records, n, b) && b.os == os[n];
    }
  }

  lemma {:induction false} GrantIsKnown(topo: Topo, lab: Lab, stack: string, request: Request, facts: Facts)
    requires Sound(lab) && Granted(topo, lab, stack, request, facts).Ok?
    ensures AllKnown(lab.records[stack := Granted(topo, lab, stack, request, facts).value])
  {
    hide StackLive;
  }

  lemma {:induction false} SoundNext(topo: Topo, lever: bool, lab: Lab, cmd: Command, lab': Lab)
    requires Sound(lab) && Next(topo, lever, lab, cmd, lab')
    ensures Sound(lab')
  {
    hide ValidCatalog, Granted, Rendered, Booted, AllVms, Execs, TeardownPlan, LastDown;
    match cmd
    case Bootstrap(stack, request, facts, noDr, vms, progress) =>
      if Granted(topo, lab, stack, request, facts).Ok? {
        GrantIsKnown(topo, lab, stack, request, facts);
      }
    case Teardown(_, _, _, _) =>
    case Flip(_) | Power(_, _) | Lose(_) =>
  }

  lemma {:induction false} AlwaysSound(topo: Topo, lever: bool, labs: seq<Lab>, cmds: seq<Command>, i: nat)
    requires Run(topo, lever, labs, cmds) && Empty(labs[0]) && i < |labs|
    ensures Sound(labs[i])
  {
    hide ValidCatalog, Next;
    if i > 0 {
      AlwaysSound(topo, lever, labs, cmds, i - 1);
      SoundNext(topo, lever, labs[i - 1], cmds[i - 1], labs[i]);
    }
  }

  // ----- pinning ------------------------------------------------------------------------

  /** A node that runs its stack's OS. */
  ghost predicate StackGuest(topo: Topo, s: string, x: string) {
    Owns(topo, s, x) && x in topo.nodes && topo.nodes[x] !in SHARED_ROLES
  }

  /** No stack finds another's guest in the commons, on a topology that renders at all. */
  ghost predicate SharedCommons(topo: Topo) {
    Renderable(topo) ==> forall s, u, x :: StackGuest(topo, s, x) && u in topo.stacks && u != s ==> x !in Commons(topo)
  }

  ghost predicate PinnedAt(topo: Topo, lab: Lab, s: string, x: string) {
    && (x in lab.guests.domains ==> s in lab.records && lab.records[s] == lab.guests.domains[x].os)
    && (x in lab.guests.dirs ==> s in lab.records && lab.records[s] == lab.guests.dirs[x])
  }

  /** Every stack guest that is defined, or remembered by Vagrant, has its stack's record,
      at the OS it was built on. */
  ghost predicate Pinned(topo: Topo, lab: Lab) {
    forall s, x :: StackGuest(topo, s, x) ==> PinnedAt(topo, lab, s, x)
  }

  lemma {:induction false} MembersAreOwned(topo: Topo, s: string, x: string)
    requires s in topo.stacks
    ensures x in Members(topo, s) <==> Owns(topo, s, x)
  {
  }

  lemma {:induction false} RenderedOs(
      topo: Topo, c: Catalog, records: map<string, OsRef>, os: map<string, OsRef>, stack: string, s: string,
      x: string)
    requires Rendered(topo, c, records, os) && StackGuest(topo, s, x) && Owns(topo, stack, x) && stack in records
    ensures s == stack && os[x] == records[s]
  {
    hide Owns;
    var b :| NodeBoots(topo, c, records, x, b) && b.os == os[x];
    var o :| SoleOwner(topo, o, x) && StackRef(c, records, o).Ok? && Box(c, topo.nodes[x], StackRef(c, records, o).value) == Ok(b);
    assert o == s && o == stack;
  }

  lemma {:induction false} BootstrapPins(
      topo: Topo, lever: bool, lab: Lab, stack: string, request: Request, facts: Facts, noDr: bool, vms: bool,
      progress: map<string, Progress>, lab': Lab)
    requires SharedCommons(topo) && Sound(lab) && Pinned(topo, lab)
    requires BootstrapNext(topo, lever, lab, stack, request, facts, noDr, vms, progress, lab')
    ensures Pinned(topo, lab')
  {
    hide StackGuest, PinnedAt, Granted, Rendered, Booted, AllVms, SharedCommons, AllKnown, ValidCatalog;
    if lab' != lab {
      var os := Granted(topo, lab, stack, request, facts).value;
      GrantKeeps(topo, lab, stack, request, facts);
      GrantIsKnown(topo, lab, stack, request, facts);
      var records := lab.records[stack := os];
      forall s, x | StackGuest(topo, s, x) ensures PinnedAt(topo, lab', s, x) {
        assert PinnedAt(topo, lab, s, x);
        if lab'.guests == lab.guests {
          StaysPinned(topo, lab, lab', s, x);
        } else {
          var os :| Rendered(topo, lab.catalog, records, os)
                    && Booted(lab.guests, lab'.guests, AllVms(topo, stack, false), AllVms(topo, stack, noDr), os, progress);
          BootPins(topo, lab, lab', stack, noDr, os, progress, s, x);
        }
      }
    }
  }

  /** A granted OS is the record's when there is one. */
  lemma {:induction false} GrantKeeps(topo: Topo, lab: Lab, stack: string, request: Request, facts: Facts)
    requires Granted(topo, lab, stack, request, facts).Ok?
    ensures stack in lab.records ==> Granted(topo, lab, stack, request, facts).value == lab.records[stack]
  {
  }

  lemma {:induction false} StaysPinned(topo: Topo, lab: Lab, lab': Lab, s: string, x: string)
    requires PinnedAt(topo, lab, s, x) && lab'.guests == lab.guests
    requires s in lab.records ==> s in lab'.records && lab'.records[s] == lab.records[s]
    ensures PinnedAt(topo, lab', s, x)
  {
  }

  lemma {:induction false} BootPins(
      topo: Topo, lab: Lab, lab': Lab, stack: string, noDr: bool, os: map<string, OsRef>,
      progress: map<string, Progress>, s: string, x: string)
    requires SharedCommons(topo) && stack in topo.stacks && StackGuest(topo, s, x) && PinnedAt(topo, lab, s, x)
    requires stack in lab'.records && Rendered(topo, lab.catalog, lab'.records, os)
    requires ValidCatalog(lab.catalog) && AllKnown(lab'.records)
    requires forall u :: u in lab.records ==> u in lab'.records && lab'.records[u] == lab.records[u]
    requires Booted(lab.guests, lab'.guests, AllVms(topo, stack, false), AllVms(topo, stack, noDr), os, progress)
    ensures PinnedAt(topo, lab', s, x)
  {
    hide SharedCommons, Rendered, StackGuest, AllVms, Booted, FreshDir, DirAfter, DomainAfter, ValidCatalog, AllKnown;
    RenderedIsRenderable(topo, lab.catalog, lab'.records, os);
    OnlyOwnVms(topo, stack, noDr, s, x);
    if x in AllVms(topo, stack, noDr) {
      RenderedOs(topo, lab.catalog, lab'.records, os, stack, s, x);
    }
    OneGuest(lab.guests, lab'.guests, AllVms(topo, stack, false), AllVms(topo, stack, noDr), os, progress, x);
  }

  /** A stack guest among the VMs a bootstrap starts is one of its own stack's. */
  lemma {:induction false} OnlyOwnVms(topo: Topo, stack: string, noDr: bool, s: string, x: string)
    requires SharedCommons(topo) && Renderable(topo) && stack in topo.stacks && StackGuest(topo, s, x)
    ensures x in AllVms(topo, stack, noDr) ==> Owns(topo, stack, x)
  {
    hide Commons, Renderable;
    MembersAreOwned(topo, stack, x);
    assert StackGuest(topo, s, x) && stack != s ==> x !in Commons(topo);
  }

  lemma {:induction false} OneGuest(
      g: Guests, h: Guests, all: seq<string>, vms: seq<string>, os: map<string, OsRef>,
      progress: map<string, Progress>, x: string)
    requires Booted(g, h, all, vms, os, progress)
    ensures x in h.dirs ==> (x in g.dirs && h.dirs[x] == g.dirs[x]) || (x in vms && x in os && h.dirs[x] == os[x])
    ensures x in h.domains ==>
              || (x in g.domains && h.domains[x].os == g.domains[x].os)
              || (x in vms && x in os && (h.domains[x].os == os[x] || (x in g.dirs && h.domains[x].os == g.dirs[x])))
  {
    assert DirAt(h, x) == DirAfter(g, all, vms, os, progress, x);
    assert DomainAt(h, x) == DomainAfter(g, all, vms, os, progress, x);
  }

  /** What any prefix of a teardown leaves, and what a whole one does. */
  lemma {:induction false} TeardownEffect(
      topo: Topo, g: Guests, h: Guests, stack: string, commons: bool, lever: bool, ok: nat)
    requires stack in topo.stacks
    requires var plan := TeardownPlan(topo, g, stack, commons, lever);
             Execs(g, plan[..if ok < |plan| then ok else |plan|]) == Some(h)
    ensures Removes(g, h, Doomed(topo, g, stack, commons, lever))
    ensures ok >= |TeardownPlan(topo, g, stack, commons, lever)| ==>
              h == Without(g, set x | x in Doomed(topo, g, stack, commons, lever))
  {
    hide Exec, Execs, Plan, Without, LastDown, Removes, Probe;
    var guests, plan := Doomed(topo, g, stack, commons, lever), TeardownPlan(topo, g, stack, commons, lever);
    DoomedDistinct(topo, g, stack, commons, lever);
    PlanRuns(g, guests);
    PlanGuests(guests, Probe(g), g.dirs.Keys);
    var k := if ok < |plan| then ok else |plan|;
    forall s | s in plan[..k] ensures s.guest in guests {
      assert s in plan;
    }
    StepsRemove(g, h, plan[..k], guests);
    assert k == |plan| ==> plan[..k] == plan;
  }

  lemma {:induction false} DoomedDistinct(topo: Topo, g: Guests, stack: string, commons: bool, lever: bool)
    requires stack in topo.stacks
    ensures Distinct(Doomed(topo, g, stack, commons, lever))
  {
    hide LastDown, Hosts;
    FilterDistinct(AllVms(topo, stack, false), x => x !in Members(topo, stack));
    var m, c := Members(topo, stack), CommonsVms(topo, stack);
    forall i, j | 0 <= i < |m| && 0 <= j < |c| ensures m[i] != c[j] {
      assert m[i] in m && c[j] in c;
    }
  }

  /** No teardown step ever forces off a guest that is not live or undefines a live one. */
  lemma {:induction false} TeardownStepsAreSafe(
      topo: Topo, g: Guests, stack: string, commons: bool, lever: bool, k: nat)
    requires stack in topo.stacks && k < |TeardownPlan(topo, g, stack, commons, lever)|
    ensures var plan := TeardownPlan(topo, g, stack, commons, lever);
            Execs(g, plan[..k]).Some? && Safe(Execs(g, plan[..k]).value, plan[k])
  {
    DoomedDistinct(topo, g, stack, commons, lever);
    EveryStepIsSafe(g, Doomed(topo, g, stack, commons, lever), k);
  }

  lemma {:induction false} TeardownPins(
      topo: Topo, lever: bool, lab: Lab, stack: string, commons: bool, ok: nat, released: bool, lab': Lab)
    requires Pinned(topo, lab) && TeardownNext(topo, lever, lab, stack, commons, ok, released, lab')
    ensures Pinned(topo, lab')
  {
    hide Execs, Plan, Owns, StackGuest, LastDown;
    if stack in topo.stacks {
      TeardownEffect(topo, lab.guests, lab'.guests, stack, commons, lever, ok);
      forall s, x | StackGuest(topo, s, x) ensures PinnedAt(topo, lab', s, x) {
        assert PinnedAt(topo, lab, s, x);
        if s == stack && ok >= |TeardownPlan(topo, lab.guests, stack, commons, lever)| {
          OwnGuestDoomed(topo, lab.guests, stack, commons, lever, x);
        }
      }
    }
  }

  lemma {:induction false} OwnGuestDoomed(topo: Topo, g: Guests, stack: string, commons: bool, lever: bool, x: string)
    requires StackGuest(topo, stack, x)
    ensures stack in topo.stacks && x in Doomed(topo, g, stack, commons, lever)
  {
  }

  /** Over every run from an empty lab, whatever the teardown failures, catalog edits and
      power changes, every stack guest stays pinned to its stack's record. */
  lemma {:induction false} AlwaysPinned(topo: Topo, lever: bool, labs: seq<Lab>, cmds: seq<Command>, i: nat)
    requires SharedCommons(topo) && Run(topo, lever, labs, cmds) && Empty(labs[0]) && i < |labs|
    ensures Pinned(topo, labs[i])
  {
    hide BootstrapNext, TeardownNext, StackGuest, SharedCommons, Sound;
    if i > 0 {
      AlwaysPinned(topo, lever, labs, cmds, i - 1);
      AlwaysSound(topo, lever, labs, cmds, i - 1);
      var lab, lab' := labs[i - 1], labs[i];
      assert Next(topo, lever, lab, cmds[i - 1], lab');
      match cmds[i - 1]
      case Bootstrap(stack, request, facts, noDr, vms, progress) =>
        BootstrapPins(topo, lever, lab, stack, request, facts, noDr, vms, progress, lab');
      case Teardown(stack, commons, ok, released) =>
        TeardownPins(topo, lever, lab, stack, commons, ok, released, lab');
      case Flip(_) | Power(_, _) | Lose(_) =>
        assert forall s, x :: PinnedAt(topo, lab, s, x) ==> PinnedAt(topo, lab', s, x);
    }
  }

  /** So the OS a stack is taken to run is the OS its guests were built on, whatever the
      catalog default has become. */
  lemma {:induction false} StackRefIsBuiltOs(
      topo: Topo, lever: bool, labs: seq<Lab>, cmds: seq<Command>, i: nat, stack: string, x: string)
    requires SharedCommons(topo) && Run(topo, lever, labs, cmds) && Empty(labs[0]) && i < |labs|
    requires StackGuest(topo, stack, x) && x in labs[i].guests.domains
    ensures StackRef(labs[i].catalog, labs[i].records, stack) == Ok(labs[i].guests.domains[x].os)
  {
    hide Run, StackGuest, SharedCommons;
    AlwaysPinned(topo, lever, labs, cmds, i);
    assert PinnedAt(topo, labs[i], stack, x);
  }

  // ----- the record gate never fires ----------------------------------------------------

  /** No stack brings up a member of another, on a topology that renders at all. */
  ghost predicate Apart(topo: Topo) {
    Renderable(topo) ==>
      forall s, u, x :: s in topo.stacks && u in topo.stacks && s != u && x in topo.nodes && x in Members(topo, u) ==>
        x !in AllVms(topo, s, false)
  }

  ghost predicate RecordedAt(topo: Topo, lab: Lab, s: string, x: string)
    requires s in topo.stacks
  {
    x in Members(topo, s) && x in lab.guests.domains ==> s in lab.records
  }

  /** Every stack with a defined member, of whatever role, has a record. */
  ghost predicate Recorded(topo: Topo, lab: Lab) {
    forall s, x :: s in topo.stacks ==> RecordedAt(topo, lab, s, x)
  }

  lemma {:induction false} FewerVms(topo: Topo, stack: string, noDr: bool, x: string)
    requires stack in topo.stacks && x in AllVms(topo, stack, noDr)
    ensures x in AllVms(topo, stack, false)
  {
    hide Members, DrHosts, Commons;
  }

  lemma {:induction false} BootstrapRecords(
      topo: Topo, lever: bool, lab: Lab, stack: string, request: Request, facts: Facts, noDr: bool, vms: bool,
      progress: map<string, Progress>, lab': Lab)
    requires Apart(topo) && Sound(lab) && Recorded(topo, lab)
    requires BootstrapNext(topo, lever, lab, stack, request, facts, noDr, vms, progress, lab')
    ensures Recorded(topo, lab')
  {
    hide Granted, Booted, Rendered, AllVms, Members, Apart, ValidCatalog, AllKnown;
    if lab' != lab {
      GrantIsKnown(topo, lab, stack, request, facts);
      forall s, x | s in topo.stacks ensures RecordedAt(topo, lab', s, x) {
        assert RecordedAt(topo, lab, s, x);
        if x in lab'.guests.domains && x !in lab.guests.domains {
          var os :| Rendered(topo, lab.catalog, lab'.records, os)
                    && Booted(lab.guests, lab'.guests, AllVms(topo, stack, false), AllVms(topo, stack, noDr), os, progress);
          OneGuest(lab.guests, lab'.guests, AllVms(topo, stack, false), AllVms(topo, stack, noDr), os, progress, x);
          FewerVms(topo, stack, noDr, x);
          RenderedIsRenderable(topo, lab.catalog, lab'.records, os);
          RenderedKeys(topo, lab.catalog, lab'.records, os);
          if s != stack {
            ApartHere(topo, stack, s, x);
          }
        }
      }
    }
  }

  lemma {:induction false} ApartHere(topo: Topo, s: string, u: string, x: string)
    requires Apart(topo) && Renderable(topo) && s in topo.stacks && u in topo.stacks && s != u
    requires x in topo.nodes && x in AllVms(topo, s, false)
    ensures x !in Members(topo, u)
  {
    hide AllVms, Members, Renderable;
  }

  lemma {:induction false} RenderedKeys(topo: Topo, c: Catalog, records: map<string, OsRef>, os: map<string, OsRef>)
    requires Rendered(topo, c, records, os)
    ensures os.Keys == topo.nodes.Keys
  {
  }

  lemma {:induction false} TeardownRecords(
      topo: Topo, lever: bool, lab: Lab, stack: string, commons: bool, ok: nat, released: bool, lab': Lab)
    requires Recorded(topo, lab) && TeardownNext(topo, lever, lab, stack, commons, ok, released, lab')
    ensures Recorded(topo, lab')
  {
    hide Execs, Plan, Members, LastDown, CommonsVms;
    if stack in topo.stacks {
      TeardownEffect(topo, lab.guests, lab'.guests, stack, commons, lever, ok);
      forall s, x | s in topo.stacks ensures RecordedAt(topo, lab', s, x) {
        assert RecordedAt(topo, lab, s, x);
      }
    }
  }

  /** When no stack brings up a member of another, every stack with a defined member has a
      record in every run. */
  lemma {:induction false} AlwaysRecorded(topo: Topo, lever: bool, labs: seq<Lab>, cmds: seq<Command>, i: nat)
    requires Apart(topo) && Run(topo, lever, labs, cmds) && Empty(labs[0]) && i < |labs|
    ensures Recorded(topo, labs[i])
  {
    hide BootstrapNext, TeardownNext, Apart, Members, Sound;
    if i > 0 {
      AlwaysRecorded(topo, lever, labs, cmds, i - 1);
      AlwaysSound(topo, lever, labs, cmds, i - 1);
      var lab, lab' := labs[i - 1], labs[i];
      assert Next(topo, lever, lab, cmds[i - 1], lab');
      match cmds[i - 1]
      case Bootstrap(stack, request, facts, noDr, vms, progress) =>
        BootstrapRecords(topo, lever, lab, stack, request, facts, noDr, vms, progress, lab');
      case Teardown(stack, commons, ok, released) =>
        TeardownRecords(topo, lever, lab, stack, commons, ok, released, lab');
      case Flip(_) | Power(_, _) | Lose(_) =>
        assert forall s, x :: s in topo.stacks && RecordedAt(topo, lab, s, x) ==> RecordedAt(topo, lab', s, x);
    }
  }

  /** So no run ever reaches a live stack without a record, and that refusal cannot arise. */
  lemma {:induction false} GateNeverFires(
      topo: Topo, lever: bool, labs: seq<Lab>, cmds: seq<Command>, i: nat, stack: string, request: Request, facts: Facts)
    requires Apart(topo) && Run(topo, lever, labs, cmds) && Empty(labs[0]) && i < |labs|
    ensures StackLive(topo, labs[i].guests, stack) ==> stack in labs[i].records
    ensures Granted(topo, labs[i], stack, request, facts) != Err(LiveWithoutRecord)
  {
    hide Run, Members, Apart, StackOs;
    AlwaysRecorded(topo, lever, labs, cmds, i);
    forall x | stack in topo.stacks && x in Members(topo, stack) && Live(labs[i].guests, x) ensures stack in labs[i].records {
      assert RecordedAt(topo, labs[i], stack, x);
    }
  }

  /** A record changes only by a completed teardown of its stack. */
  lemma {:induction false} RecordsAreStable(topo: Topo, lever: bool, lab: Lab, cmd: Command, lab': Lab, stack: string)
    requires Next(topo, lever, lab, cmd, lab') && stack in lab.records
    requires !(stack in lab'.records && lab'.records[stack] == lab.records[stack])
    ensures cmd.Teardown? && cmd.stack == stack && stack in topo.stacks
    ensures cmd.ok >= |TeardownPlan(topo, lab.guests, stack, cmd.commons, lever)|
    ensures forall x :: x in Members(topo, stack) ==> x !in lab'.guests.domains && x !in lab'.guests.dirs
  {
    hide Granted, Rendered, Booted, AllVms, Execs, Plan, LastDown, Hosts;
    match cmd
    case Bootstrap(s, request, facts, noDr, vms, progress) =>
      if Granted(topo, lab, s, request, facts).Ok? {
        GrantKeeps(topo, lab, s, request, facts);
      }
    case Teardown(s, commons, ok, released) =>
      TeardownEffect(topo, lab.guests, lab'.guests, s, commons, lever, ok);
    case Flip(_) | Power(_, _) | Lose(_) =>
  }

  // ----- commons and huge pages ---------------------------------------------------------

  /** Without `--commons`, a teardown touches no commons guest while another stack with a
      cluster group has a live member. */
  lemma {:induction false} CommonsOutliveOthers(
      topo: Topo, lever: bool, lab: Lab, stack: string, ok: nat, released: bool, lab': Lab, x: string)
    requires stack in topo.stacks && TeardownNext(topo, lever, lab, stack, false, ok, released, lab')
    requires OtherStacksUp(topo, lab.guests, stack) && x in Commons(topo) && x !in Members(topo, stack)
    ensures DomainAt(lab'.guests, x) == DomainAt(lab.guests, x) && DirAt(lab'.guests, x) == DirAt(lab.guests, x)
  {
    hide Execs, Plan, OtherStacksUp, Hosts;
    TeardownEffect(topo, lab.guests, lab'.guests, stack, false, lever, ok);
    assert x !in Doomed(topo, lab.guests, stack, false, lever);
  }

  /** The reference count sees this guest: it is one of the stack's own VMs, or a member of
      another stack with a cluster group. */
  ghost predicate Counted(topo: Topo, stack: string, x: string)
    requires stack in topo.stacks
  {
    || x in AllVms(topo, stack, false)
    || exists v :: v in topo.stacks && v != stack && topo.stacks[v].clusterGroup && x in Members(topo, v)
  }

  /** Every member is counted by every teardown, on a topology that renders at all. */
  ghost predicate AllCounted(topo: Topo) {
    Renderable(topo) ==>
      forall s, u, x :: s in topo.stacks && u in topo.stacks && x in topo.nodes && x in Members(topo, u) ==>
        Counted(topo, s, x)
  }

  ghost predicate LiveCounted(topo: Topo, g: Guests, stack: string)
    requires stack in topo.stacks
  {
    forall u, x :: u in topo.stacks && x in Members(topo, u) && Live(g, x) ==> Counted(topo, stack, x)
  }

  /** A domain is a node's, and was defined after a render. */
  ghost predicate Placed(topo: Topo, lab: Lab) {
    forall x :: x in lab.guests.domains ==> x in topo.nodes && Renderable(topo)
  }

  lemma {:induction false} PlacedNext(topo: Topo, lever: bool, lab: Lab, cmd: Command, lab': Lab)
    requires Sound(lab) && Placed(topo, lab) && Next(topo, lever, lab, cmd, lab')
    ensures Placed(topo, lab')
  {
    hide ValidCatalog, AllKnown, Granted, Rendered, Booted, AllVms, Renderable, Execs, TeardownPlan, LastDown, Doomed;
    match cmd
    case Bootstrap(stack, request, facts, noDr, vms, progress) =>
      if lab'.guests != lab.guests {
        GrantIsKnown(topo, lab, stack, request, facts);
        var os :| Rendered(topo, lab.catalog, lab'.records, os)
                  && Booted(lab.guests, lab'.guests, AllVms(topo, stack, false), AllVms(topo, stack, noDr), os, progress);
        RenderedIsRenderable(topo, lab.catalog, lab'.records, os);
        RenderedKeys(topo, lab.catalog, lab'.records, os);
        forall x | x in lab'.guests.domains ensures x in topo.nodes {
          OneGuest(lab.guests, lab'.guests, AllVms(topo, stack, false), AllVms(topo, stack, noDr), os, progress, x);
        }
      }
    case Teardown(stack, commons, ok, _) =>
      if stack in topo.stacks {
        TeardownEffect(topo, lab.guests, lab'.guests, stack, commons, lever, ok);
      }
    case Flip(_) | Power(_, _) | Lose(_) =>
  }

  lemma {:induction false} AlwaysPlaced(topo: Topo, lever: bool, labs: seq<Lab>, cmds: seq<Command>, i: nat)
    requires Run(topo, lever, labs, cmds) && Empty(labs[0]) && i < |labs|
    ensures Placed(topo, labs[i])
  {
    hide ValidCatalog, Next, Sound, Renderable;
    if i > 0 {
      AlwaysPlaced(topo, lever, labs, cmds, i - 1);
      AlwaysSound(topo, lever, labs, cmds, i - 1);
      PlacedNext(topo, lever, labs[i - 1], cmds[i - 1], labs[i]);
    }
  }

  ghost predicate SomeGuestLive(topo: Topo, g: Guests) {
    (exists u :: StackLive(topo, g, u)) || exists x :: x in Commons(topo) && Live(g, x)
  }

  /** A completed teardown that is the last stack down, and so releases the huge pages. */
  ghost predicate Releases(topo: Topo, g: Guests, h: Guests, stack: string, commons: bool)
    requires stack in topo.stacks
  {
    !OtherStacksUp(topo, g, stack) && h == Without(g, set x | x in Doomed(topo, g, stack, commons, true))
  }

  lemma {:induction false} ReleaseIsSafe(topo: Topo, g: Guests, h: Guests, stack: string, commons: bool)
    requires stack in topo.stacks && LiveCounted(topo, g, stack) && Releases(topo, g, h, stack, commons)
    ensures !SomeGuestLive(topo, h)
  {
    hide Hosts, Commons;
    var doomed := Doomed(topo, g, stack, commons, true);
    assert LastDown(topo, g, stack, commons, true);
    forall x | x in AllVms(topo, stack, false) ensures x in doomed {
    }
    forall x ensures x in doomed ==> !Live(h, x) {
    }
    forall u, x | u in topo.stacks && x in Members(topo, u) ensures !Live(h, x) {
      assert Live(g, x) ==> Counted(topo, stack, x);
      if v :| v in topo.stacks && v != stack && topo.stacks[v].clusterGroup && x in Members(topo, v) {
        assert Live(g, x) ==> StackLive(topo, g, v);
      }
    }
  }

  lemma {:induction false} PlacedIsCounted(topo: Topo, lab: Lab, stack: string)
    requires AllCounted(topo) && Placed(topo, lab) && stack in topo.stacks
    ensures LiveCounted(topo, lab.guests, stack)
  {
    hide Renderable, Counted, Members;
  }

  /** In a run, huge pages fall only when no stack or commons guest is live. */
  lemma {:induction false} PagesFallWhenIdle(topo: Topo, lever: bool, labs: seq<Lab>, cmds: seq<Command>, i: nat)
    requires AllCounted(topo) && Run(topo, lever, labs, cmds) && Empty(labs[0]) && i < |cmds|
    requires labs[i].pages && !labs[i + 1].pages
    ensures cmds[i].Teardown? && !SomeGuestLive(topo, labs[i + 1].guests)
  {
    hide Granted, Rendered, Booted, AllVms, Execs, Plan, AllCounted, SomeGuestLive, Doomed, LiveCounted, Placed, Empty;
    var lab, lab' := labs[i], labs[i + 1];
    assert Next(topo, lever, lab, cmds[i], lab');
    match cmds[i]
    case Teardown(s, commons, ok, released) =>
      TeardownEffect(topo, lab.guests, lab'.guests, s, commons, lever, ok);
      AlwaysPlaced(topo, lever, labs, cmds, i);
      PlacedIsCounted(topo, lab, s);
      ReleaseIsSafe(topo, lab.guests, lab'.guests, s, commons);
    case Bootstrap(_, _, _, _, _, _) =>
    case Flip(_) | Power(_, _) | Lose(_) =>
  }
}
