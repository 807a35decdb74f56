/** The commands on a host: `mqlab bootstrap` and `mqlab teardown`. */
module LabHost {
  import opened Wrappers
  import opened BoxNames
  import opened Topology
  import opened Versions
  import opened Destroy
  import opened LabRun

  class Host {
    const topo: Topo
    /** Memory backing is on, so huge pages are reserved. */
    const lever: bool
    var guests: Guests
    var records: map<string, OsRef>
    var catalog: Catalog
    var pages: bool

    ghost function State(): Lab
      reads this
    {
      Lab(guests, records, catalog, pages)
    }

    constructor (t: Topo, l: bool, lab: Lab)
      ensures topo == t && lever == l && State() == lab
    {
      topo, lever := t, l;
      guests, records, catalog, pages := lab.guests, lab.records, lab.catalog, lab.pages;
    }

    /** One read of `virsh list`: does any member hold a live process? */
    method AnyLive(members: seq<string>) returns (live: bool)
      ensures live <==> exists m :: m in members && Live(guests, m)
    {
      var states := Probe(guests);
      for i := 0 to |members|
        invariant forall m :: m in members[..i] ==> !Live(guests, m)
      {
        assert members[..i + 1] == members[..i] + [members[i]];
        if IsLive(states, members[i]) {
          assert Live(guests, members[i]);
          return true;
        }
      }
      assert members[..|members|] == members;
      return false;
    }

    method AnyOtherStackUp(exclude: string) returns (up: bool)
      ensures up == OtherStacksUp(topo, guests, exclude)
    {
      hide Live;
      var rest := topo.stacks.Keys;
      while rest != {}
        invariant rest <= topo.stacks.Keys
        invariant forall u :: u in topo.stacks && u !in rest && u != exclude && topo.stacks[u].clusterGroup ==> !StackLive(topo, guests, u)
        decreases rest
      {
        var u :| u in rest;
        rest := rest - {u};
        if u == exclude || !topo.stacks[u].clusterGroup {
          continue;
        }
        var members := GroupMembers(topo, topo.stacks[u].groups);
        var live := AnyLive(members);
        if live {
          return true;
        }
      }
      return false;
    }

    /** Pins the OS a bootstrap builds on in the stack's record, or refuses. */
    method ReconcileInstance(stack: string, request: Request, facts: Facts) returns (r: Result<OsRef, Refusal>)
      requires stack in topo.stacks
      modifies this`records
      ensures r == Granted(topo, old(State()), stack, request, facts)
      ensures ValidCatalog(catalog) ==> Decides(topo, old(State()), stack, request, facts, r)
      ensures records == if r.Ok? then old(records)[stack := r.value] else old(records)
    {
      hide StackOs, Live, Decides, ValidCatalog;
      if ValidCatalog(catalog) {
        GrantDecides(topo, State(), stack, request, facts);
      }
      var build: Option<OsRef> := None;
      if request.Config? {
        build := request.os;
      } else if stack in records {
        build := Some(records[stack]);
      }
      var requested := StackOs(catalog, stack, build, facts);
      if requested.Err? {
        return Err(Version(requested.error));
      }
      if stack in records {
        if records[stack] != requested.value {
          return Err(RunningAnother(records[stack]));
        }
        assert records[stack := requested.value] == records;
        return Ok(requested.value);
      }
      var members := GroupMembers(topo, topo.stacks[stack].groups);
      var live := AnyLive(members);
      if live {
        return Err(LiveWithoutRecord);
      }
      records := records[stack := requested.value];
      return Ok(requested.value);
    }

    /** Brings a stack up. `vms` and `progress` say how far the phases got. */
    method Bootstrap(
        stack: string, request: Request, facts: Facts, noDr: bool, vms: bool, progress: map<string, Progress>)
      returns (r: Result<OsRef, Refusal>)
      requires ValidCatalog(catalog) && stack in topo.stacks
      modifies this`guests, this`records, this`pages
      ensures BootstrapNext(topo, lever, old(State()), stack, request, facts, noDr, vms, progress, State())
      ensures r == if noDr && topo.stacks[stack].drGroups == [] then Err(NoDrSite) else Granted(topo, old(State()), stack, request, facts)
      ensures r == Err(NoDrSite) || Decides(topo, old(State()), stack, request, facts, r)
      ensures records == if r.Ok? then old(records)[stack := r.value] else old(records)
    {
      hide Granted, Decides, ValidCatalog, Rendered, Booted, AllVms;
      if noDr && topo.stacks[stack].drGroups == [] {
        return Err(NoDrSite);
      }
      r := ReconcileInstance(stack, request, facts);
      if r.Ok? && vms {
        VmsPhase(stack, noDr, progress);
      }
    }

    /** Renders every node's box, reserves huge pages, and brings the guests up. */
    method VmsPhase(stack: string, noDr: bool, progress: map<string, Progress>)
      requires ValidCatalog(catalog) && stack in topo.stacks
      modifies this`guests, this`pages
      ensures guests == old(guests)
              || exists os :: Rendered(topo, catalog, records, os)
                   && Booted(old(guests), guests, AllVms(topo, stack, false), AllVms(topo, stack, noDr), os, progress)
      ensures pages == old(pages) || (lever && pages)
    {
      hide ValidCatalog, NodeBoots, Booted, AllVms, FamilyAgrees, Rendered;
      var boxes := NodeBoxes(topo, catalog, records);
      if boxes.Err? {
        return;
      }
      if lever {
        pages := true;
      }
      var os: map<string, OsRef> := map n | n in boxes.value :: boxes.value[n].os;
      BoxesRender(topo, catalog, records, boxes.value);
      var all := AllVmsOf(topo, stack, false);
      var booting := AllVmsOf(topo, stack, noDr);
      BringUp(all, booting, os, progress);
    }

    /** Forgets stale machine directories, then starts the guests in order. */
    method BringUp(all: seq<string>, vms: seq<string>, os: map<string, OsRef>, progress: map<string, Progress>)
      requires Distinct(vms)
      modifies this`guests
      ensures Booted(old(guests), guests, all, vms, os, progress)
      ensures forall x :: BootedAs(old(guests), guests, all, vms, os, progress, x)
    {
      hide BootedAs;
      ghost var was := guests;
      for i := 0 to |all|
        invariant guests.domains == was.domains
        invariant forall x :: DirAt(guests, x) == FreshDir(was, all[..i], os, x)
      {
        var g := all[i];
        assert forall x :: x in all[..i + 1] <==> x in all[..i] || x == g;
        ghost var before := guests;
        if g in guests.dirs && g in os && guests.dirs[g] != os[g] {
          guests := guests.(dirs := guests.dirs - {g});
        }
        forall x ensures DirAt(guests, x) == FreshDir(was, all[..i + 1], os, x) {
          assert x != g ==> DirAt(guests, x) == DirAt(before, x);
          assert DirAt(before, g) == FreshDir(was, all[..i], os, g);
        }
      }
      assert all[..|all|] == all;
      for i := 0 to |vms|
        invariant Booted(was, guests, all, vms[..i], os, progress)
      {
        ghost var before := guests;
        var g := vms[i];
        assert g !in vms[..i];
        assert vms[..i + 1] == vms[..i] + [g];
        assert DirAt(guests, g) == FreshDir(was, all, os, g) && DomainAt(guests, g) == DomainAt(was, g);
        if g in os && g in progress {
          StartGuest(g, os[g], progress[g]);
        }
        BootedOneMore(was, before, guests, all, vms[..i], os, progress, g);
      }
      assert vms[..|vms|] == vms;
      BootedIff(was, guests, all, vms, os, progress);
    }

    /** `vagrant up` of one guest: an existing domain starts, unless Vagrant forgot it; a new
        one is created from the box its machine directory remembers, else the rendered one. */
    method StartGuest(g: string, box: OsRef, progress: Progress)
      modifies this`guests
      ensures forall x :: x != g ==> DirAt(guests, x) == DirAt(old(guests), x) && DomainAt(guests, x) == DomainAt(old(guests), x)
      ensures DirAt(guests, g) == if g !in old(guests).domains && g !in old(guests).dirs then Some(box) else DirAt(old(guests), g)
      ensures DomainAt(guests, g) ==
                if progress == DirOnly then DomainAt(old(guests), g)
                else if g !in old(guests).domains then Some(Domain("running", DirAt(guests, g).value))
                else if g in old(guests).dirs then Some(old(guests).domains[g].(raw := "running"))
                else DomainAt(old(guests), g)
    {
      if g !in guests.domains {
        var dir := if g in guests.dirs then guests.dirs[g] else box;
        guests := guests.(dirs := guests.dirs[g := dir]);
        if progress == Up {
          guests := guests.(domains := guests.domains[g := Domain("running", dir)]);
        }
      } else if g in guests.dirs && progress == Up {
        guests := guests.(domains := guests.domains[g := guests.domains[g].(raw := "running")]);
      }
    }

    /** The destroy steps of a teardown, and whether it takes the last stack down. */
    method PlanTeardown(stack: string, commons: bool) returns (steps: seq<Step>, lastDown: bool)
      requires stack in topo.stacks
      ensures steps == TeardownPlan(topo, guests, stack, commons, lever)
      ensures lastDown == LastDown(topo, guests, stack, commons, lever)
    {
      hide Plan, OtherStacksUp, Probe, Hosts;
      var members := GroupMembers(topo, topo.stacks[stack].groups);
      var all := AllVmsOf(topo, stack, false);
      var rest := Filter(all, vm => vm !in members);
      FilterSame(all, vm => vm !in members, vm => vm !in Members(topo, stack));
      var states, dirs := Probe(guests), guests.dirs.Keys;
      steps := PlanDestroy(members, states, dirs);
      lastDown := false;
      if lever || !commons {
        var others := AnyOtherStackUp(stack);
        lastDown := !others;
      }
      assert members + [] == members;
      if commons || lastDown {
        var more := PlanDestroy(rest, states, dirs);
        PlanConcat(members, rest, states, dirs);
        steps := steps + more;
      }
    }

    /** Runs a teardown's steps until one fails for an outside reason. */
    method RunSteps(steps: seq<Step>, ghost doomed: seq<string>, ok: nat)
      requires Distinct(doomed) && steps == Plan(doomed, Probe(guests), guests.dirs.Keys)
      modifies this`guests
      ensures Execs(old(guests), steps[..if ok < |steps| then ok else |steps|]) == Some(guests)
    {
      hide Exec, Execs, Plan, Probe;
      ghost var was := guests;
      var i := 0;
      assert steps[..0] == [];
      ExecsNone(guests);
      while i < |steps| && i < ok
        invariant i <= |steps| && i <= ok
        invariant Execs(was, steps[..i]) == Some(guests)
      {
        EveryStepIsSafe(was, doomed, i);
        NextStep(was, guests, steps, i);
        var next := Exec(guests, steps[i]);
        guests := next.value;
        i := i + 1;
      }
      assert i == if ok < |steps| then ok else |steps|;
    }

    /** Destroys a stack's members, and the commons with the last stack. `ok` commands run
        before one fails; `released` says whether the release play works. */
    method Teardown(stack: string, commons: bool, ok: nat, released: bool) returns (done: bool)
      requires stack in topo.stacks
      modifies this`guests, this`records, this`pages
      ensures TeardownNext(topo, lever, old(State()), stack, commons, ok, released, State())
      ensures done <==> ok >= |TeardownPlan(topo, old(guests), stack, commons, lever)|
      ensures done ==> guests == Without(old(guests), set x | x in Doomed(topo, old(guests), stack, commons, lever))
      ensures done ==> TornDown(topo, old(guests), stack, commons, guests)
      ensures done ==> pages == (old(pages) && !(lever && released && OthersIdle(topo, old(guests), stack)))
      ensures done ==> records == old(records) - {stack}
      ensures !done ==> records == old(records) && pages == old(pages)
    {
      hide Exec, Execs, Plan, Without, LastDown, Probe, Doomed, TornDown, OthersIdle, OtherStacksUp;
      WithoutDoomed(topo, guests, stack, commons, lever);
      LastDownIff(topo, guests, stack, commons, lever);
      var steps, lastDown := PlanTeardown(stack, commons);
      ghost var was := guests;
      DoomedDistinct(topo, guests, stack, commons, lever);
      RunSteps(steps, Doomed(topo, guests, stack, commons, lever), ok);
      TeardownEffect(topo, was, guests, stack, commons, lever, ok);
      if ok < |steps| {
        return false;
      }
      records := records - {stack};
      if lever && lastDown && released {
        pages := false;
      }
      return true;
    }
  }

  lemma {:induction false} BoxesRender(topo: Topo, c: Catalog, records: map<string, OsRef>, boxes: map<string, BoxEntry>)
    requires forall s :: s in topo.stacks ==> FamilyAgrees(topo, c, records, s)
    requires boxes.Keys == topo.nodes.Keys && forall n :: n in boxes ==> NodeBoots(topo, c, records, n, boxes[n])
    ensures Rendered(topo, c, records, map n | n in boxes :: boxes[n].os)
  {
    hide NodeBoots, FamilyAgrees;
  }

  lemma {:induction false} BootedOneMore(
      was: Guests, before: Guests, now: Guests, all: seq<string>, vms: seq<string>, os: map<string, OsRef>,
      progress: map<string, Progress>, g: string)
    requires Booted(was, before, all, vms, os, progress) && g !in vms
    requires forall x :: x != g ==> DirAt(now, x) == DirAt(before, x) && DomainAt(now, x) == DomainAt(before, x)
    requires DirAt(now, g) == DirAfter(was, all, [g], os, progress, g) && DomainAt(now, g) == DomainAfter(was, all, [g], os, progress, g)
    ensures Booted(was, now, all, vms + [g], os, progress)
  {
  }

  lemma {:induction false} PlanConcat(a: seq<string>, b: seq<string>, states: map<string, string>, dirs: set<string>)
    ensures Plan(a + b, states, dirs) == Plan(a, states, dirs) + Plan(b, states, dirs)
    decreases |b|
  {
    hide PlanOne;
    if b == [] {
      assert a + b == a;
    } else {
      assert (a + b)[..|a + b| - 1] == a + b[..|b| - 1];
      PlanConcat(a, b[..|b| - 1], states, dirs);
    }
  }

  lemma {:induction false} ExecsNone(g: Guests)
    ensures Execs(g, []) == Some(g)
  {
  }

  lemma {:induction false} NextStep(was: Guests, g: Guests, steps: seq<Step>, i: nat)
    requires i < |steps| && Execs(was, steps[..i]) == Some(g) && Safe(g, steps[i])
    ensures Exec(g, steps[i]).Some? && Execs(was, steps[..i + 1]) == Exec(g, steps[i])
  {
    assert steps[..i + 1] == steps[..i] + [steps[i]];
    ExecsConcat(was, steps[..i], [steps[i]]);
    assert [steps[i]][1..] == [];
    ExecsNone(Exec(g, steps[i]).value);
  }
}
