/** The state-aware destroy planner, against the libvirt commands its steps run. */
module Destroy {
  import opened Wrappers
  import opened BoxNames

  /** A defined domain: its raw `virsh list` state, and the OS of the box it was built on. */
  datatype Domain = Domain(raw: string, os: OsRef)

  /** Defined domains, and the OS each Vagrant machine directory remembers. */
  datatype Guests = Guests(domains: map<string, Domain>, dirs: map<string, OsRef>)

  datatype Status = Absent | Off | Running

  // ----- classification -----------------------------------------------------------------

  function Classify(states: map<string, string>, guest: string): Status {
    if guest !in states then Absent else if states[guest] == "running" then Running else Off
  }

  lemma {:induction false} ClassifyIff(states: map<string, string>, guest: string)
    ensures Classify(states, guest) == Absent <==> guest !in states
    ensures Classify(states, guest) == Running <==> guest in states && states[guest] == "running"
  {
  }

  /** Holds a live qemu process: running, paused, suspended, anything but shut off. */
  predicate IsLive(states: map<string, string>, guest: string) { guest in states && states[guest] != "shut off" }

  /** What `virsh list --all` shows. */
  function Probe(g: Guests): map<string, string> { map x | x in g.domains :: g.domains[x].raw }

  predicate Live(g: Guests, x: string) { x in g.domains && g.domains[x].raw != "shut off" }

  // ----- steps --------------------------------------------------------------------------

  datatype Step = ForceOff(guest: string) | Undefine(guest: string) | Forget(guest: string)

  /** One command. `virsh destroy` needs a live domain, and `virsh undefine
      --remove-all-storage` a stopped one; `rm -rf` always succeeds. */
  function Exec(g: Guests, step: Step): Option<Guests> {
    match step
    case ForceOff(x) => if Live(g, x) then Some(g.(domains := g.domains[x := g.domains[x].(raw := "shut off")])) else None
    case Undefine(x) => if x in g.domains && !Live(g, x) then Some(g.(domains := g.domains - {x})) else None
    case Forget(x) => Some(g.(dirs := g.dirs - {x}))
  }

  function Execs(g: Guests, steps: seq<Step>): Option<Guests>
    decreases |steps|
  {
    if steps == [] then Some(g)
    else
      match Exec(g, steps[0])
      case None => None
      case Some(next) => Execs(next, steps[1..])
  }

  // ----- planning -----------------------------------------------------------------------

  function PlanOne(states: map<string, string>, dirs: set<string>, x: string): seq<Step> {
    (if Classify(states, x) == Absent then []
     else if IsLive(states, x) then [ForceOff(x), Undefine(x)]
     else [Undefine(x)])
    + (if x in dirs then [Forget(x)] else [])
  }

  ghost function Plan(guests: seq<string>, states: map<string, string>, dirs: set<string>): seq<Step> {
    if guests == [] then [] else Plan(guests[..|guests| - 1], states, dirs) + PlanOne(states, dirs, guests[|guests| - 1])
  }

  method PlanDestroy(guests: seq<string>, states: map<string, string>, dirs: set<string>) returns (steps: seq<Step>)
    ensures steps == Plan(guests, states, dirs)
    ensures forall x :: Planned(guests, states, dirs, steps, x)
  {
    hide Planned;
    forall x ensures Planned(guests, states, dirs, Plan(guests, states, dirs), x) {
      PlanIff(guests, states, dirs, x);
    }
    steps := [];
    for i := 0 to |guests|
      invariant steps == Plan(guests[..i], states, dirs)
    {
      var g := guests[i];
      ghost var before := steps;
      if Classify(states, g) == Absent {
      } else if IsLive(states, g) {
        steps := steps + [ForceOff(g), Undefine(g)];
      } else {
        steps := steps + [Undefine(g)];
      }
      if g in dirs {
        steps := steps + [Forget(g)];
      }
      assert steps == before + PlanOne(states, dirs, g);
      assert guests[..i + 1][..i] == guests[..i];
    }
    assert guests[..|guests|] == guests;
  }

  /** A guest is forced off exactly when it is defined in any state but shut off, undefined
      exactly when it is defined, and forgotten exactly when it has a machine directory. */
  ghost predicate Planned(guests: seq<string>, states: map<string, string>, dirs: set<string>, steps: seq<Step>, x: string) {
    && (ForceOff(x) in steps <==> x in guests && x in states && states[x] != "shut off")
    && (Undefine(x) in steps <==> x in guests && x in states)
    && (Forget(x) in steps <==> x in guests && x in dirs)
  }

  lemma {:induction false} PlanIff(guests: seq<string>, states: map<string, string>, dirs: set<string>, x: string)
    ensures Planned(guests, states, dirs, Plan(guests, states, dirs), x)
  {
    if guests != [] {
      var init, last := guests[..|guests| - 1], guests[|guests| - 1];
      PlanIff(init, states, dirs, x);
      assert x in guests <==> x in init || x == last;
      OnePlanned(states, dirs, last, x);
    }
  }

  lemma {:induction false} OnePlanned(states: map<string, string>, dirs: set<string>, g: string, x: string)
    ensures Planned([g], states, dirs, PlanOne(states, dirs, g), x)
  {
  }

  // ----- what running a plan does -------------------------------------------------------

  lemma {:induction false} ExecsConcat(g: Guests, a: seq<Step>, b: seq<Step>)
    ensures Execs(g, a + b) == match Execs(g, a) case None => None case Some(m) => Execs(m, b)
    decreases |a|
  {
    if a == [] {
      assert a + b == b;
    } else {
      assert (a + b)[1..] == a[1..] + b;
      match Exec(g, a[0])
      case None =>
      case Some(next) => ExecsConcat(next, a[1..], b);
    }
  }

  function Without(g: Guests, xs: set<string>): Guests { Guests(g.domains - xs, g.dirs - xs) }

  lemma {:induction false} OneGone(g: Guests, states: map<string, string>, dirs: set<string>, x: string)
    requires (x in states <==> x in g.domains) && (x in states ==> states[x] == g.domains[x].raw) && (x in dirs <==> x in g.dirs)
    ensures Execs(g, PlanOne(states, dirs, x)) == Some(Without(g, {x}))
  {
    var head := if Classify(states, x) == Absent then [] else if IsLive(states, x) then [ForceOff(x), Undefine(x)] else [Undefine(x)];
    var tail := if x in dirs then [Forget(x)] else [];
    var bare := g.(domains := g.domains - {x});
    if IsLive(states, x) {
      var off := g.(domains := g.domains[x := g.domains[x].(raw := "shut off")]);
      assert head[1..] == [Undefine(x)] && [Undefine(x)][1..] == [];
      assert off.domains - {x} == bare.domains;
      assert Execs(off, [Undefine(x)]) == Some(bare);
    } else if x in states {
      assert head[1..] == [];
    } else {
      assert bare == g;
    }
    assert Execs(g, head) == Some(bare);
    ExecsConcat(g, head, tail);
    if x in dirs {
      assert tail[1..] == [];
    } else {
      assert bare.dirs - {x} == bare.dirs;
    }
  }

  lemma {:induction false} WithoutNone(g: Guests, guests: seq<string>)
    requires guests == []
    ensures Without(g, set x | x in guests) == g
  {
    assert (set x | x in guests) == {};
  }

  lemma {:induction false} WithoutOne(g: Guests, rest: seq<string>, x: string)
    requires x !in rest
    ensures Without(Without(g, set y | y in rest), {x}) == Without(g, set y | y in rest + [x])
    ensures var mid := Without(g, set y | y in rest);
            && (x in Probe(g) <==> x in mid.domains) && (x in Probe(g) ==> Probe(g)[x] == mid.domains[x].raw)
            && (x in g.dirs.Keys <==> x in mid.dirs)
  {
    var a, b := set y | y in rest, set y | y in rest + [x];
    assert b == a + {x};
    assert g.domains - a - {x} == g.domains - b && g.dirs - a - {x} == g.dirs - b;
  }

  /** A plan for duplicate-free guests runs to its end, and leaves every listed guest absent
      with its machine directory gone, and every other guest as it was. */
  lemma {:induction false} PlanRuns(g: Guests, guests: seq<string>)
    requires Distinct(guests)
    ensures Execs(g, Plan(guests, Probe(g), g.dirs.Keys)) == Some(Without(g, set x | x in guests))
    decreases |guests|
  {
    hide Without, PlanOne;
    if guests == [] {
      assert Without(g, set x | x in guests) == g by { WithoutNone(g, guests); }
    } else {
      var n := |guests| - 1;
      var rest, x := guests[..n], guests[n];
      PlanRuns(g, rest);
      assert guests == rest + [x];
      WithoutOne(g, rest, x);
      OneGone(Without(g, set y | y in rest), Probe(g), g.dirs.Keys, x);
      ExecsConcat(g, Plan(rest, Probe(g), g.dirs.Keys), PlanOne(Probe(g), g.dirs.Keys, x));
    }
  }

  /** So re-planning after a completed run yields no step. */
  lemma {:induction false} ReplanIsEmpty(g: Guests, guests: seq<string>)
    requires forall x :: x in guests ==> x !in g.domains && x !in g.dirs
    ensures Plan(guests, Probe(g), g.dirs.Keys) == []
    decreases |guests|
  {
    if guests != [] {
      var n := |guests| - 1;
      assert guests[n] in guests;
      ReplanIsEmpty(g, guests[..n]);
    }
  }

  /** A step is safe where it runs: it never forces off a guest that is not live, and never
      undefines one that is. */
  predicate Safe(g: Guests, step: Step) {
    match step
    case ForceOff(x) => Live(g, x)
    case Undefine(x) => x in g.domains && !Live(g, x)
    case Forget(_) => true
  }

  /** Every prefix of a plan runs, and its next step is safe in the state reached. */
  lemma {:induction false} EveryStepIsSafe(g: Guests, guests: seq<string>, k: nat)
    requires Distinct(guests) && k < |Plan(guests, Probe(g), g.dirs.Keys)|
    ensures var plan := Plan(guests, Probe(g), g.dirs.Keys);
            Execs(g, plan[..k]).Some? && Safe(Execs(g, plan[..k]).value, plan[k])
  {
    var plan := Plan(guests, Probe(g), g.dirs.Keys);
    PlanRuns(g, guests);
    assert plan == plan[..k] + plan[k..];
    ExecsConcat(g, plan[..k], plan[k..]);
    assert plan[k..][0] == plan[k];
  }

  /** A plan stopped part-way only removes: every guest still defined is one that was, on the
      OS it was built on, and every guest not listed is untouched. */
  ghost predicate Removes(g: Guests, h: Guests, guests: seq<string>) {
    && (forall x :: x in h.domains ==> x in g.domains && h.domains[x].os == g.domains[x].os)
    && (forall x :: x in h.domains ==> h.domains[x].raw == g.domains[x].raw || h.domains[x].raw == "shut off")
    && (forall x :: x in h.dirs ==> x in g.dirs && h.dirs[x] == g.dirs[x])
    && (forall x :: x !in guests ==> (x in h.domains <==> x in g.domains) && (x in h.dirs <==> x in g.dirs))
    && (forall x :: x !in guests && x in g.domains ==> h.domains[x] == g.domains[x])
  }

  lemma {:induction false} StepsRemove(g: Guests, h: Guests, steps: seq<Step>, guests: seq<string>)
    requires Execs(g, steps) == Some(h) && forall s :: s in steps ==> s.guest in guests
    ensures Removes(g, h, guests)
    decreases |steps|
  {
    if steps != [] {
      var next := Exec(g, steps[0]).value;
      StepsRemove(next, h, steps[1..], guests);
      assert steps[0] in steps;
    }
  }

  lemma {:induction false} PlanGuests(guests: seq<string>, states: map<string, string>, dirs: set<string>)
    ensures forall s :: s in Plan(guests, states, dirs) ==> s.guest in guests
    decreases |guests|
  {
    if guests != [] {
      PlanGuests(guests[..|guests| - 1], states, dirs);
    }
  }
}
