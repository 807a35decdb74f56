/** The topology: nodes by box role, groups of hosts, and the stacks and commons made of
    groups. */
module Topology {
  import opened Wrappers

  /** `osFamily` is the family the topology declares for the stack. */
  datatype StackCfg = StackCfg(groups: seq<string>, drGroups: seq<string>, clusterGroup: bool, osFamily: string)

  datatype Topo = Topo(
    nodes: map<string, string>,
    groups: map<string, seq<string>>,
    stacks: map<string, StackCfg>,
    commons: seq<string>)

  function GroupHosts(topo: Topo, g: string): seq<string> { if g in topo.groups then topo.groups[g] else [] }

  /** All hosts of the listed groups, in declared order. */
  ghost function Hosts(topo: Topo, groups: seq<string>): seq<string> {
    if groups == [] then [] else Hosts(topo, groups[..|groups| - 1]) + GroupHosts(topo, groups[|groups| - 1])
  }

  /** One of the listed groups has this host. */
  ghost predicate InGroups(topo: Topo, groups: seq<string>, x: string) {
    exists k :: k in groups && k in topo.groups && x in topo.groups[k]
  }

  lemma {:induction false} InHosts(topo: Topo, groups: seq<string>, x: string)
    ensures x in Hosts(topo, groups) <==> InGroups(topo, groups, x)
  {
    if groups != [] {
      var init, last := groups[..|groups| - 1], groups[|groups| - 1];
      assert groups == init + [last];
      InHosts(topo, init, x);
      if k :| k in init && k in topo.groups && x in topo.groups[k] {
        assert k in groups;
      }
    }
  }

  /** `a` is met before `b`. */
  ghost predicate MetFirst(xs: seq<string>, a: string, b: string) { exists p :: 0 <= p < |xs| && xs[p] == a && b !in xs[..p + 1] }

  /** Each element once, in the order in which they are first met. */
  ghost predicate FirstOnly(xs: seq<string>, r: seq<string>) {
    && Distinct(r) && (forall x :: x in r <==> x in xs)
    && forall i, j :: 0 <= i < j < |r| ==> MetFirst(xs, r[i], r[j])
  }

  lemma {:induction false} UniqueIsFirstOnly(xs: seq<string>)
    ensures FirstOnly(xs, Unique(xs))
  {
    if xs != [] {
      var init, x := xs[..|xs| - 1], xs[|xs| - 1];
      assert xs == init + [x];
      UniqueIsFirstOnly(init);
      var r := Unique(xs);
      forall i, j | 0 <= i < j < |r| ensures MetFirst(xs, r[i], r[j]) {
        MetMore(init, x, r[i], r[j]);
        if j == |Unique(init)| {
          assert r[i] in Unique(init);
          var p :| 0 <= p < |init| && init[p] == r[i];
          assert xs[p] == r[i] && xs[..p + 1] == init[..p + 1];
        }
      }
    }
  }

  lemma {:induction false} MetMore(xs: seq<string>, x: string, a: string, b: string)
    ensures MetFirst(xs, a, b) ==> MetFirst(xs + [x], a, b)
  {
    if p :| 0 <= p < |xs| && xs[p] == a && b !in xs[..p + 1] {
      assert (xs + [x])[p] == a && (xs + [x])[..p + 1] == xs[..p + 1];
    }
  }

  /** The first occurrence of each host, in order. */
  ghost function Unique(xs: seq<string>): (r: seq<string>)
    ensures Distinct(r) && forall x :: x in r <==> x in xs
  {
    if xs == [] then []
    else
      var r := Unique(xs[..|xs| - 1]);
      var x := xs[|xs| - 1];
      assert xs == xs[..|xs| - 1] + [x];
      if x in r then r else r + [x]
  }

  /** `xs` with the hosts of `more` not yet in it appended. */
  ghost function Extend(xs: seq<string>, more: seq<string>): (r: seq<string>)
    ensures Distinct(xs) ==> Distinct(r)
    ensures forall x :: x in r <==> x in xs || x in more
  {
    if more == [] then xs
    else
      var r := Extend(xs, more[..|more| - 1]);
      var x := more[|more| - 1];
      assert more == more[..|more| - 1] + [x];
      if x in r then r else r + [x]
  }

  lemma {:induction false} UniqueOfConcat(a: seq<string>, b: seq<string>)
    ensures Unique(a + b) == Extend(Unique(a), b)
  {
    if b == [] {
      assert a + b == a;
    } else {
      assert (a + b)[..|a + b| - 1] == a + b[..|b| - 1];
      UniqueOfConcat(a, b[..|b| - 1]);
    }
  }

  /** The hosts of the listed groups, flattened in declared order and de-duplicated. */
  method GroupMembers(topo: Topo, groups: seq<string>) returns (members: seq<string>)
    ensures members == Unique(Hosts(topo, groups))
    ensures FirstOnly(Hosts(topo, groups), members) && forall x :: x in members <==> InGroups(topo, groups, x)
  {
    members := [];
    for i := 0 to |groups|
      invariant members == Unique(Hosts(topo, groups[..i]))
    {
      var hosts := GroupHosts(topo, groups[i]);
      ghost var before := members;
      members := AppendNew(members, hosts);
      assert groups[..i + 1][..i] == groups[..i];
      UniqueOfConcat(Hosts(topo, groups[..i]), hosts);
    }
    assert groups[..|groups|] == groups;
    UniqueIsFirstOnly(Hosts(topo, groups));
    forall x ensures x in members <==> InGroups(topo, groups, x) {
      InHosts(topo, groups, x);
    }
  }

  /** The inner loop: append each host that is not listed yet. */
  method AppendNew(xs: seq<string>, more: seq<string>) returns (r: seq<string>)
    ensures r == Extend(xs, more)
  {
    r := xs;
    for i := 0 to |more|
      invariant r == Extend(xs, more[..i])
    {
      assert more[..i + 1][..i] == more[..i];
      if more[i] !in r {
        r := r + [more[i]];
      }
    }
    assert more[..|more|] == more;
  }

  ghost function Members(topo: Topo, stack: string): seq<string>
    requires stack in topo.stacks
  {
    Unique(Hosts(topo, topo.stacks[stack].groups))
  }

  ghost function DrHosts(topo: Topo, stack: string): seq<string>
    requires stack in topo.stacks
  {
    Unique(Hosts(topo, topo.stacks[stack].drGroups))
  }

  ghost function Commons(topo: Topo): seq<string> { Unique(Hosts(topo, topo.commons)) }

  /** The elements of `xs` that satisfy `keep`, in order. */
  function Filter(xs: seq<string>, keep: string -> bool): (r: seq<string>)
    ensures forall x :: x in r <==> x in xs && keep(x)
    ensures |r| <= |xs|
  {
    if xs == [] then []
    else
      var r := Filter(xs[..|xs| - 1], keep);
      var x := xs[|xs| - 1];
      assert xs == xs[..|xs| - 1] + [x];
      if keep(x) then r + [x] else r
  }

  lemma {:induction false} FilterDistinct(xs: seq<string>, keep: string -> bool)
    requires Distinct(xs)
    ensures Distinct(Filter(xs, keep))
  {
    if xs != [] {
      var rest := xs[..|xs| - 1];
      FilterDistinct(rest, keep);
      assert xs == rest + [xs[|xs| - 1]];
    }
  }

  /** The members a bring-up starts: all of them, or those outside the DR site. */
  ghost function Effective(topo: Topo, stack: string, noDr: bool): (r: seq<string>)
    requires stack in topo.stacks
  {
    var members, dr := Members(topo, stack), DrHosts(topo, stack);
    if noDr then Filter(members, m => m !in dr) else members
  }

  /** Every VM of a stack: its effective members, then the commons. */
  ghost function AllVms(topo: Topo, stack: string, noDr: bool): (r: seq<string>)
    requires stack in topo.stacks
    ensures Distinct(r)
    ensures forall x :: x in r <==> x in Effective(topo, stack, noDr) || x in Commons(topo)
  {
    var e := Effective(topo, stack, noDr);
    FilterDistinct(Members(topo, stack), m => m !in DrHosts(topo, stack));
    Extend(e, Commons(topo))
  }

  method AllVmsOf(topo: Topo, stack: string, noDr: bool) returns (vms: seq<string>)
    requires stack in topo.stacks
    ensures vms == AllVms(topo, stack, noDr)
    ensures Distinct(vms) && forall x :: x in vms <==> BootsWith(topo, stack, noDr, x) || InGroups(topo, topo.commons, x)
    ensures forall i, j :: 0 <= i < j < |vms| && BootsWith(topo, stack, noDr, vms[j]) ==> BootsWith(topo, stack, noDr, vms[i])
  {
    var members := GroupMembers(topo, topo.stacks[stack].groups);
    if noDr {
      var dr := GroupMembers(topo, topo.stacks[stack].drGroups);
      FilterSame(members, m => m !in dr, m => m !in DrHosts(topo, stack));
      members := Filter(members, m => m !in dr);
    }
    var commons := GroupMembers(topo, topo.commons);
    vms := AppendNew(members, commons);
    assert forall x :: x in members <==> BootsWith(topo, stack, noDr, x);
    ExtendPrefix(members, commons);
  }

  /** A host of the stack's groups, outside its DR groups when there is no DR site. */
  ghost predicate BootsWith(topo: Topo, stack: string, noDr: bool, x: string)
    requires stack in topo.stacks
  {
    InGroups(topo, topo.stacks[stack].groups, x) && !(noDr && InGroups(topo, topo.stacks[stack].drGroups, x))
  }

  lemma {:induction false} ExtendPrefix(xs: seq<string>, more: seq<string>)
    ensures xs <= Extend(xs, more) && forall i :: |xs| <= i < |Extend(xs, more)| && Distinct(Extend(xs, more)) ==> Extend(xs, more)[i] !in xs
  {
    if more != [] {
      ExtendPrefix(xs, more[..|more| - 1]);
    }
  }

  lemma {:induction false} FilterSame(xs: seq<string>, f: string -> bool, g: string -> bool)
    requires forall x :: x in xs ==> f(x) == g(x)
    ensures Filter(xs, f) == Filter(xs, g)
  {
    if xs != [] {
      var rest := xs[..|xs| - 1];
      assert xs == rest + [xs[|xs| - 1]];
      FilterSame(rest, f, g);
    }
  }

  /** The stacks whose groups list a node. */
  ghost predicate Owns(topo: Topo, stack: string, node: string) {
    stack in topo.stacks && node in Hosts(topo, topo.stacks[stack].groups)
  }
}
