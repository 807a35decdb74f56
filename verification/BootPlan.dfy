/** The vms phase: the boot order, its batches, and the `vagrant up` steps they become. */
module BootPlan {
  import opened Wrappers
  import opened Text
  import opened Topology

  // ----- order --------------------------------------------------------------------------

  function Lead(vms: seq<string>, infra: set<string>): seq<string> { Filter(vms, v => v in infra) }

  function Rest(vms: seq<string>, infra: set<string>): seq<string> { Filter(vms, v => v !in infra) }

  /** The infra hosts first, everything else behind them, both in `vms` order. */
  ghost function Order(vms: seq<string>, infra: set<string>): seq<string> { Lead(vms, infra) + Rest(vms, infra) }

  /** `a` comes before `b`. */
  ghost predicate Before(xs: seq<string>, a: string, b: string) {
    exists i, j :: 0 <= i < j < |xs| && xs[i] == a && xs[j] == b
  }

  /** Filtering keeps order, both ways. */
  lemma {:induction false} FilterOrder(xs: seq<string>, keep: string -> bool, a: string, b: string)
    requires keep(a) && keep(b)
    ensures Before(Filter(xs, keep), a, b) <==> Before(xs, a, b)
  {
    if xs != [] {
      var n := |xs| - 1;
      var rest, x := xs[..n], xs[n];
      var r := Filter(rest, keep);
      FilterOrder(rest, keep, a, b);
      assert xs == rest + [x];
      BeforeSnoc(rest, x, a, b);
      BeforeSnoc(r, x, a, b);
    }
  }

  lemma {:induction false} BeforeSnoc(xs: seq<string>, x: string, a: string, b: string)
    ensures Before(xs + [x], a, b) <==> Before(xs, a, b) || (x == b && a in xs)
  {
    var all := xs + [x];
    if Before(xs, a, b) {
      var i, j :| 0 <= i < j < |xs| && xs[i] == a && xs[j] == b;
      assert all[i] == a && all[j] == b;
    }
    if x == b && a in xs {
      var i :| 0 <= i < |xs| && xs[i] == a;
      assert all[i] == a && all[|xs|] == b;
    }
    if Before(all, a, b) {
      var i, j :| 0 <= i < j < |all| && all[i] == a && all[j] == b;
      assert xs[i] == a;
      assert j < |xs| ==> xs[j] == b;
    }
  }

  lemma {:induction false} FilterSplits(xs: seq<string>, keep: string -> bool)
    ensures multiset(Filter(xs, keep)) + multiset(Filter(xs, x => !keep(x))) == multiset(xs)
  {
    if xs != [] {
      var rest := xs[..|xs| - 1];
      assert xs == rest + [xs[|xs| - 1]];
      FilterSplits(rest, keep);
    }
  }

  /** The boot order is a stable permutation of the duplicate-free VM list, infra first. */
  lemma {:induction false} OrderIsStable(vms: seq<string>, infra: set<string>, a: string, b: string)
    requires Distinct(vms)
    ensures multiset(Order(vms, infra)) == multiset(vms) && Distinct(Order(vms, infra))
    ensures a in vms && b in vms && a in infra && b !in infra ==> Before(Order(vms, infra), a, b)
    ensures (a in infra <==> b in infra) ==> (Before(Order(vms, infra), a, b) <==> Before(vms, a, b))
  {
    OrderParts(vms, infra);
    Joined(Lead(vms, infra), Rest(vms, infra), a, b);
    if a in infra && b in infra {
      FilterOrder(vms, v => v in infra, a, b);
    } else if a !in infra && b !in infra {
      FilterOrder(vms, v => v !in infra, a, b);
    }
  }

  lemma {:induction false} OrderParts(vms: seq<string>, infra: set<string>)
    requires Distinct(vms)
    ensures multiset(Lead(vms, infra)) + multiset(Rest(vms, infra)) == multiset(vms)
    ensures Distinct(Lead(vms, infra)) && Distinct(Rest(vms, infra))
    ensures forall x :: (x in Lead(vms, infra) <==> x in vms && x in infra) && (x in Rest(vms, infra) <==> x in vms && x !in infra)
  {
    var keep := v => v in infra;
    FilterSplits(vms, keep);
    FilterSame(vms, v => v !in infra, x => !keep(x));
    FilterDistinct(vms, v => v in infra);
    FilterDistinct(vms, v => v !in infra);
  }

  lemma {:induction false} Joined(lead: seq<string>, rest: seq<string>, a: string, b: string)
    requires Distinct(lead) && Distinct(rest) && forall x :: x in lead ==> x !in rest
    ensures Distinct(lead + rest)
    ensures Before(lead + rest, a, b) <==> Before(lead, a, b) || Before(rest, a, b) || (a in lead && b in rest)
  {
    var all := lead + rest;
    forall i, j | 0 <= i < j < |all| ensures all[i] != all[j] {
      if i < |lead| && j >= |lead| {
        assert lead[i] in lead && rest[j - |lead|] in rest;
      }
    }
    if i, j :| 0 <= i < j < |lead| && lead[i] == a && lead[j] == b {
      assert all[i] == a && all[j] == b;
    }
    if i, j :| 0 <= i < j < |rest| && rest[i] == a && rest[j] == b {
      assert all[|lead| + i] == a && all[|lead| + j] == b;
    }
    if a in lead && b in rest {
      var i :| 0 <= i < |lead| && lead[i] == a;
      var j :| 0 <= j < |rest| && rest[j] == b;
      assert all[i] == a && all[|lead| + j] == b;
    }
    if i, j :| 0 <= i < j < |all| && all[i] == a && all[j] == b {
      assert all[i] == if i < |lead| then lead[i] else rest[i - |lead|];
      assert all[j] == if j < |lead| then lead[j] else rest[j - |lead|];
    }
  }

  predicate Infra(topo: Topo, v: string) { v in GroupHosts(topo, "infra") }

  /** A stable permutation of the stack's VM list, the infra hosts first. */
  method BootOrder(topo: Topo, stack: string, noDr: bool) returns (order: seq<string>)
    requires stack in topo.stacks
    ensures multiset(order) == multiset(AllVms(topo, stack, noDr)) && Distinct(order)
    ensures forall a, b :: a in order && b in order && Infra(topo, a) && !Infra(topo, b) ==> Before(order, a, b)
    ensures forall a, b :: (Infra(topo, a) <==> Infra(topo, b)) ==> (Before(order, a, b) <==> Before(AllVms(topo, stack, noDr), a, b))
  {
    hide AllVms, Lead, Rest, Order, Before, Distinct;
    var vms := AllVmsOf(topo, stack, noDr);
    var infra := set h | h in GroupHosts(topo, "infra");
    order := Lead(vms, infra) + Rest(vms, infra);
    OrderIs(vms, infra);
    forall a, b
      ensures a in vms && b in vms && a in infra && b !in infra ==> Before(order, a, b)
      ensures (a in infra <==> b in infra) ==> (Before(order, a, b) <==> Before(vms, a, b))
    {
      OrderIsStable(vms, infra, a, b);
    }
    OrderIsStable(vms, infra, "", "");
    forall a ensures a in order <==> a in vms {
      SameElements(order, vms, a);
    }
  }

  lemma {:induction false} OrderIs(vms: seq<string>, infra: set<string>)
    ensures Order(vms, infra) == Lead(vms, infra) + Rest(vms, infra)
  {
    hide Lead, Rest;
  }

  lemma {:induction false} SameElements(xs: seq<string>, ys: seq<string>, a: string)
    requires multiset(xs) == multiset(ys)
    ensures a in xs <==> a in ys
  {
    assert a in xs <==> a in multiset(xs);
    assert a in ys <==> a in multiset(ys);
  }

  // ----- batches ------------------------------------------------------------------------

  function Flatten(batches: seq<seq<string>>): seq<string> {
    if batches == [] then [] else Flatten(batches[..|batches| - 1]) + batches[|batches| - 1]
  }

  /** Cuts the guests into batches no larger than `size`: they concatenate back, there are as few as
      possible, and all but the last are full. */
  method BatchGuests(guests: seq<string>, size: nat) returns (batches: seq<seq<string>>)
    requires size >= 1
    ensures Flatten(batches) == guests && |batches| == (|guests| + size - 1) / size
    ensures forall b :: b in batches ==> 1 <= |b| <= size
    ensures forall k :: 0 <= k < |batches| - 1 ==> |batches[k]| == size
  {
    batches := [];
    var i := 0;
    assert Flatten(batches) == guests[..0];
    hide Flatten;
    while i < |guests|
      invariant 0 <= i == |batches| * size
      invariant Flatten(batches) == guests[..if i < |guests| then i else |guests|]
      invariant i < |guests| + size
      invariant forall b :: b in batches ==> 1 <= |b| <= size
      invariant forall k :: 0 <= k < |batches| && (k < |batches| - 1 || i <= |guests|) ==> |batches[k]| == size
      decreases |guests| - i
    {
      var end := if i + size < |guests| then i + size else |guests|;
      ghost var before := batches;
      FlattenMore(batches, guests[i..end]);
      batches := batches + [guests[i..end]];
      assert guests[..i] + guests[i..end] == guests[..end];
      OneMore(|before|, size);
      i := i + size;
    }
    assert guests[..|guests|] == guests;
    Ceiling(|guests|, size, |batches|);
  }

  lemma {:induction false} FlattenMore(batches: seq<seq<string>>, b: seq<string>)
    ensures Flatten(batches + [b]) == Flatten(batches) + b
  {
    assert (batches + [b])[..|batches|] == batches;
  }

  lemma {:induction false} OneMore(k: nat, size: nat)
    ensures (k + 1) * size == k * size + size
  {
  }

  lemma {:induction false} Ceiling(n: nat, size: nat, k: nat)
    requires size >= 1 && n <= k * size < n + size
    ensures (n + size - 1) / size == k
  {
    var m: nat := n + size - 1;
    assert k * size <= m < (k + 1) * size;
    Quotient(m, size, k);
  }

  lemma {:induction false} Quotient(m: nat, size: nat, k: nat)
    requires size >= 1 && k * size <= m < (k + 1) * size
    ensures m / size == k
  {
    var q: int := m / size;
    var d: int := q - k;
    assert q * size <= m < (q + 1) * size;
    assert d * size == q * size - k * size;
    Grows(d, size);
  }

  lemma {:induction false} Grows(d: int, size: int)
    requires size >= 0
    ensures d >= 1 ==> d * size >= size
    ensures d <= -1 ==> d * size <= -size
  {
  }

  /** A guest sits in one batch only. */
  lemma {:induction false} InOneBatch(batches: seq<seq<string>>, i: nat, j: nat, x: string)
    requires Distinct(Flatten(batches)) && i < j < |batches| && x in batches[i]
    ensures x !in batches[j]
  {
    var n := |batches| - 1;
    var init := batches[..n];
    var all := Flatten(batches);
    if j < n {
      forall a, b | 0 <= a < b < |Flatten(init)| ensures Flatten(init)[a] != Flatten(init)[b] {
        assert all[a] == Flatten(init)[a] && all[b] == Flatten(init)[b];
      }
      InOneBatch(init, i, j, x);
    } else {
      InFlatten(init, i, x);
      var a :| 0 <= a < |Flatten(init)| && Flatten(init)[a] == x;
      forall b | 0 <= b < |batches[n]| ensures batches[n][b] != x {
        assert all[|Flatten(init)| + b] == batches[n][b] && all[a] == x;
      }
    }
  }

  lemma {:induction false} InFlatten(batches: seq<seq<string>>, i: nat, x: string)
    requires i < |batches| && x in batches[i]
    ensures x in Flatten(batches)
  {
    var n := |batches| - 1;
    if i < n {
      InFlatten(batches[..n], i, x);
    }
  }

  // ----- steps --------------------------------------------------------------------------

  /** A command step: its title and argument list. */
  datatype UpStep = UpStep(title: string, argv: seq<string>)

  ghost predicate SharesBox(batch: seq<string>, boxes: map<string, string>) {
    exists i, j :: 0 <= i < j < |batch| && batch[i] in boxes && batch[j] in boxes && boxes[batch[i]] == boxes[batch[j]]
  }

  /** Whether two guests of a batch clone one box; None when a guest has no box. */
  method BatchSharesBox(batch: seq<string>, boxes: map<string, string>) returns (r: Option<bool>)
    ensures r == None <==> exists g :: g in batch && g !in boxes
    ensures r.Some? ==> r.value == SharesBox(batch, boxes)
  {
    var keys: seq<string> := [];
    for i := 0 to |batch|
      invariant |keys| == i && forall k :: 0 <= k < i ==> batch[k] in boxes && keys[k] == boxes[batch[k]]
    {
      if batch[i] !in boxes {
        return None;
      }
      keys := keys + [boxes[batch[i]]];
    }
    DistinctIff(keys);
    return Some(|set k | k in keys| != |keys|);
  }

  /** `len(set(keys)) != len(keys)` says that some key repeats. */
  lemma {:induction false} DistinctIff(keys: seq<string>)
    ensures |set k | k in keys| <= |keys|
    ensures |set k | k in keys| == |keys| <==> Distinct(keys)
  {
    if keys != [] {
      var n := |keys| - 1;
      var rest, x := keys[..n], keys[n];
      DistinctIff(rest);
      var a, b := set k | k in rest, set k | k in keys;
      assert keys == rest + [x];
      assert b == a + {x};
      if x in rest {
        assert b == a;
      }
      assert Distinct(keys) <==> Distinct(rest) && x !in rest;
    }
  }

  const SERIAL := "--no-parallel"

  function Title(stack: string, index: nat, count: nat): string {
    if count == 1 then stack + " vms up" else stack + " vms up [" + Decimal(index) + "/" + Decimal(count) + "]"
  }

  function BatchTitle(stack: string, k: nat, count: nat): string { Title(stack, k + 1, count) }

  /** Batch number `k` as a step: the title numbers it, unless it is the only one, and guests of
      one box are brought up one by one. */
  ghost predicate IsUp(stack: string, batches: seq<seq<string>>, boxes: map<string, string>, k: nat, s: UpStep)
    requires k < |batches|
  {
    && s.title == stack + " vms up" + (if |batches| == 1 then "" else " [" + Decimal(k + 1) + "/" + Decimal(|batches|) + "]")
    && s.argv == ["vagrant", "up"] + (if SharesBox(batches[k], boxes) then ["--no-parallel"] else []) + batches[k]
  }

  lemma {:induction false} TitleIs(stack: string, k: nat, count: nat)
    ensures BatchTitle(stack, k, count)
            == stack + " vms up" + if count == 1 then "" else " [" + Decimal(k + 1) + "/" + Decimal(count) + "]"
  {
    var tail := Decimal(k + 1) + "/" + Decimal(count) + "]";
    assert stack + " vms up [" == stack + " vms up" + " [";
    assert stack + " vms up" + "" == stack + " vms up";
    assert stack + " vms up [" + Decimal(k + 1) + "/" + Decimal(count) + "]" == stack + " vms up" + (" [" + Decimal(k + 1) + "/" + Decimal(count) + "]");
  }

  lemma {:induction false} UpIs(stack: string, batches: seq<seq<string>>, boxes: map<string, string>, k: nat, s: UpStep)
    requires k < |batches| && s.title == Title(stack, k + 1, |batches|)
    requires s.argv == ["vagrant", "up"] + (if SharesBox(batches[k], boxes) then [SERIAL] else []) + batches[k]
    ensures IsUp(stack, batches, boxes, k, s)
  {
    hide SharesBox, Title;
    TitleIs(stack, k, |batches|);
  }

  /** One `vagrant up` per batch; None when a guest has no box. No parallel one holds two
      guests of one box. */
  method UpSteps(stack: string, batches: seq<seq<string>>, boxes: map<string, string>) returns (r: Option<seq<UpStep>>)
    ensures r == None <==> exists k, g :: 0 <= k < |batches| && g in batches[k] && g !in boxes
    ensures r.Some? ==> |r.value| == |batches| && forall k :: 0 <= k < |batches| ==> IsUp(stack, batches, boxes, k, r.value[k])
    ensures r.Some? ==> forall k :: 0 <= k < |batches| && SERIAL !in r.value[k].argv ==> !SharesBox(batches[k], boxes)
  {
    hide SharesBox, IsUp;
    var steps := [];
    for k := 0 to |batches|
      invariant |steps| == k && forall j :: 0 <= j < k ==> IsUp(stack, batches, boxes, j, steps[j])
      invariant forall j, g :: 0 <= j < k && g in batches[j] ==> g in boxes
    {
      var shares := BatchSharesBox(batches[k], boxes);
      if shares == None {
        return None;
      }
      var serial := if shares.value then [SERIAL] else [];
      var step := UpStep(Title(stack, k + 1, |batches|), ["vagrant", "up"] + serial + batches[k]);
      assert IsUp(stack, batches, boxes, k, step) by {
        UpIs(stack, batches, boxes, k, step);
      }
      steps := steps + [step];
    }
    forall k | 0 <= k < |batches| && SERIAL !in steps[k].argv ensures !SharesBox(batches[k], boxes) {
      if SharesBox(batches[k], boxes) {
        SerialWhenShared(stack, batches, boxes, k, steps[k]);
      }
    }
    return Some(steps);
  }

  lemma {:induction false} SerialWhenShared(
      stack: string, batches: seq<seq<string>>, boxes: map<string, string>, k: nat, s: UpStep)
    requires k < |batches| && IsUp(stack, batches, boxes, k, s) && SharesBox(batches[k], boxes)
    ensures SERIAL in s.argv
  {
    hide SharesBox;
    assert s.argv[2] == SERIAL;
  }

  /** Titles tell batches apart. */
  lemma {:induction false} TitlesDiffer(stack: string, i: nat, j: nat, count: nat)
    requires i <= count && j <= count && Title(stack, i, count) == Title(stack, j, count) && count != 1
    ensures i == j
  {
    var p, q := stack + " vms up [", "/" + Decimal(count) + "]";
    assert Title(stack, i, count) == p + Decimal(i) + q && Title(stack, j, count) == p + Decimal(j) + q;
    assert |Decimal(i)| == |Decimal(j)|;
    assert (p + Decimal(i) + q)[|p|..|p| + |Decimal(i)|] == Decimal(i);
    assert (p + Decimal(j) + q)[|p|..|p| + |Decimal(i)|] == Decimal(j);
    DecimalInjective(i, j);
  }

  // ----- reading the steps back ---------------------------------------------------------

  predicate IsFlag(a: string) { |a| > 0 && a[0] == '-' }

  predicate IsVagrantUp(s: UpStep) { ["vagrant", "up"] <= s.argv }

  /** The VMs a step boots: the arguments after `up`, flags dropped. */
  function Guests(s: UpStep): seq<string>
    requires IsVagrantUp(s)
  {
    Filter(s.argv[2..], a => !IsFlag(a))
  }

  /** Each `vagrant up`'s VMs under its title; a later step wins. */
  ghost function ReadBatches(steps: seq<UpStep>): map<string, seq<string>> {
    if steps == [] then map[]
    else
      var read, s := ReadBatches(steps[..|steps| - 1]), steps[|steps| - 1];
      if IsVagrantUp(s) then read[s.title := Guests(s)] else read
  }

  /** Step title to the VMs its `vagrant up` boots. */
  method VagrantUpBatches(steps: seq<UpStep>) returns (batches: map<string, seq<string>>)
    ensures batches == ReadBatches(steps)
    ensures forall t :: t in batches <==> exists k :: LastUp(steps, t, k)
    ensures forall t, k :: LastUp(steps, t, k) ==> Boots(steps[k].argv, batches[t])
  {
    hide IsVagrantUp, Guests, Boots;
    forall t ensures t in ReadBatches(steps) <==> exists k :: LastUp(steps, t, k) {
      ReadIff(steps, t);
    }
    forall t, k | LastUp(steps, t, k) ensures t in ReadBatches(steps) && Boots(steps[k].argv, ReadBatches(steps)[t]) {
      ReadLast(steps, t, k);
    }
    batches := map[];
    for i := 0 to |steps|
      invariant batches == ReadBatches(steps[..i])
    {
      assert steps[..i + 1][..i] == steps[..i];
      if IsVagrantUp(steps[i]) {
        batches := batches[steps[i].title := Guests(steps[i])];
      }
    }
    assert steps[..|steps|] == steps;
  }

  ghost predicate StartsUp(argv: seq<string>) { |argv| >= 2 && argv[0] == "vagrant" && argv[1] == "up" }

  /** The last `vagrant up` of this title. */
  ghost predicate LastUp(steps: seq<UpStep>, title: string, k: int) {
    && 0 <= k < |steps| && steps[k].title == title && StartsUp(steps[k].argv)
    && forall j :: k < j < |steps| && steps[j].title == title ==> !StartsUp(steps[j].argv)
  }

  /** The guests are the arguments that do not start with a dash, in order. */
  ghost predicate Boots(argv: seq<string>, guests: seq<string>) {
    && StartsUp(argv)
    && guests == Filter(argv[2..], a => a == "" || a[0] != '-')
    && forall g :: g in guests <==> g in argv[2..] && (g == "" || g[0] != '-')
  }

  lemma {:induction false} StartsUpIff(s: UpStep)
    ensures IsVagrantUp(s) <==> StartsUp(s.argv)
    ensures IsVagrantUp(s) ==> Boots(s.argv, Guests(s))
  {
    if IsVagrantUp(s) {
      var up := ["vagrant", "up"];
      assert s.argv[0] == up[0] && s.argv[1] == up[1];
      FilterSame(s.argv[2..], a => !IsFlag(a), a => a == "" || a[0] != '-');
    }
  }

  lemma {:induction false} ReadIff(steps: seq<UpStep>, title: string)
    ensures title in ReadBatches(steps) <==> exists k :: LastUp(steps, title, k)
  {
    hide IsVagrantUp, Guests, StartsUp, Boots;
    if steps != [] {
      var n := |steps| - 1;
      ReadIff(steps[..n], title);
      StartsUpIff(steps[n]);
      if k :| LastUp(steps, title, k) {
        assert k < n ==> LastUp(steps[..n], title, k);
      }
      if IsVagrantUp(steps[n]) && steps[n].title == title {
        assert LastUp(steps, title, n);
      } else if k :| LastUp(steps[..n], title, k) {
        assert LastUp(steps, title, k);
      }
    }
  }

  lemma {:induction false} ReadLast(steps: seq<UpStep>, title: string, k: int)
    requires LastUp(steps, title, k)
    ensures title in ReadBatches(steps) && Boots(steps[k].argv, ReadBatches(steps)[title])
    decreases |steps|
  {
    hide IsVagrantUp, Guests, StartsUp, Boots;
    var n := |steps| - 1;
    StartsUpIff(steps[n]);
    if k < n {
      assert LastUp(steps[..n], title, k);
      ReadLast(steps[..n], title, k);
    }
  }

  lemma {:induction false} ReadDistinct(steps: seq<UpStep>)
    requires forall k :: 0 <= k < |steps| ==> IsVagrantUp(steps[k])
    requires forall j, k :: 0 <= j < k < |steps| ==> steps[j].title != steps[k].title
    ensures forall k :: 0 <= k < |steps| ==> steps[k].title in ReadBatches(steps) && ReadBatches(steps)[steps[k].title] == Guests(steps[k])
    ensures forall t :: t in ReadBatches(steps) ==> exists k :: 0 <= k < |steps| && steps[k].title == t
    decreases |steps|
  {
    hide IsVagrantUp, Guests;
    if steps != [] {
      var n := |steps| - 1;
      var init := steps[..n];
      ReadDistinct(init);
      assert forall k :: 0 <= k < n ==> init[k] == steps[k];
    }
  }

  lemma {:induction false} FlagsDropped(serial: bool, batch: seq<string>)
    requires forall g :: g in batch ==> !IsFlag(g)
    ensures Filter((if serial then [SERIAL] else []) + batch, a => !IsFlag(a)) == batch
    decreases |batch|
  {
    var xs := (if serial then [SERIAL] else []) + batch;
    if batch != [] {
      var n := |batch| - 1;
      assert xs[..|xs| - 1] == (if serial then [SERIAL] else []) + batch[..n];
      assert batch == batch[..n] + [batch[n]];
      FlagsDropped(serial, batch[..n]);
    } else if serial {
      assert xs[..0] == [];
      assert IsFlag(SERIAL);
    }
  }

  /** Reading the emitted steps back gives exactly the batches, each under its own title. */
  lemma {:induction false} BatchesReadBack(
      stack: string, batches: seq<seq<string>>, boxes: map<string, string>, steps: seq<UpStep>)
    requires |steps| == |batches| && forall j :: 0 <= j < |batches| ==> IsUp(stack, batches, boxes, j, steps[j])
    requires forall j, g :: 0 <= j < |batches| && g in batches[j] ==> !IsFlag(g)
    ensures forall k :: 0 <= k < |batches| ==> var t := BatchTitle(stack, k, |batches|); t in ReadBatches(steps) && ReadBatches(steps)[t] == batches[k]
    ensures forall t :: t in ReadBatches(steps) ==> exists k :: 0 <= k < |batches| && t == BatchTitle(stack, k, |batches|)
  {
    hide Guests, IsUp, BatchTitle, IsVagrantUp;
    forall k | 0 <= k < |steps|
      ensures IsVagrantUp(steps[k]) && Guests(steps[k]) == batches[k] && steps[k].title == BatchTitle(stack, k, |batches|)
    {
      UpIsVagrantUp(stack, batches, boxes, k, steps[k]);
    }
    forall j, k | 0 <= j < k < |steps| ensures steps[j].title != steps[k].title {
      BatchTitlesDiffer(stack, j, k, |batches|);
    }
    ReadDistinct(steps);
  }

  lemma {:induction false} BatchTitlesDiffer(stack: string, j: nat, k: nat, count: nat)
    requires j < k < count
    ensures BatchTitle(stack, j, count) != BatchTitle(stack, k, count)
  {
    hide Title;
    if Title(stack, j + 1, count) == Title(stack, k + 1, count) {
      TitlesDiffer(stack, j + 1, k + 1, count);
    }
  }

  lemma {:induction false} UpIsVagrantUp(
      stack: string, batches: seq<seq<string>>, boxes: map<string, string>, k: nat, s: UpStep)
    requires k < |batches| && IsUp(stack, batches, boxes, k, s) && forall g :: g in batches[k] ==> !IsFlag(g)
    ensures IsVagrantUp(s) && Guests(s) == batches[k] && s.title == BatchTitle(stack, k, |batches|)
  {
    hide SharesBox, Title;
    TitleIs(stack, k, |batches|);
    assert s.argv[2..] == (if SharesBox(batches[k], boxes) then [SERIAL] else []) + batches[k];
    FlagsDropped(SharesBox(batches[k], boxes), batches[k]);
    FilterSame(s.argv[2..], a => !IsFlag(a), a => !IsFlag(a));
  }
}
