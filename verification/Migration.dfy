/** `mqlab build migrate`: legacy top-level entries of build/ move into their buckets. */
module Migration {
  import opened Wrappers
  import opened FileTree
  import opened MigrationRun
  import opened MigrationPlan

  const MIGRATION: map<string, string> := map[
    "mq" := "cache", "refs" := "cache", "ansible_collections" := "cache",
    "snapshots" := "state", "boxes" := "state", "rhel96-box" := "state", "secrets" := "state",
    "fence_key" := "state", "fence_key.pub" := "state", "runs" := "state", "reports" := "state", "dr-runs" := "state",
    "inventory.ini" := "work", "lab" := "work", "versions.json" := "work", "grafana" := "work",
    "prometheus" := "work", "obs" := "work", "salt" := "work"]

  const DVD_SUFFIX := "-dvd.iso"

  const MERGEABLE: set<string> := {"refs"}

  const BUILD: Path := ["build"]
  const VAGRANT_SRC: Path := ["lab", ".vagrant"]
  const VAGRANT_DST: Path := ["build", "state", "vagrant"]

  predicate IsDvd(name: string) {
    |name| >= |DVD_SUFFIX| && name[|name| - |DVD_SUFFIX|..] == DVD_SUFFIX
  }

  predicate Legacy(name: string) { name in MIGRATION || IsDvd(name) }

  /** The bucket a legacy name belongs to. */
  function Bucket(name: string): string
    requires Legacy(name)
  {
    if name in MIGRATION then MIGRATION[name] else "state"
  }

  predicate IsBucket(name: string) { name == "cache" || name == "state" || name == "work" }

  lemma {:induction false} BucketsAreNotLegacy(name: string)
    requires Legacy(name)
    ensures IsBucket(Bucket(name)) && !IsBucket(name) && name != "vagrant"
  {
  }

  function Src(name: string): Path { ["build", name] }

  function Dst(name: string): Path
    requires Legacy(name)
  {
    ["build", Bucket(name), name]
  }

  /** `Path.exists()`: a link exists only when it resolves, which `live` observes. */
  predicate Exists(t: Tree, live: set<Path>, p: Path) { p in t && (t[p].Link? ==> p in live) }

  // ----- what happens to each legacy entry ----------------------------------------------

  predicate Active(t: Tree, live: set<Path>, n: string) { Legacy(n) && Exists(t, live, Src(n)) }

  predicate TopMove(t: Tree, live: set<Path>, n: string) { Active(t, live, n) && !Exists(t, live, Dst(n)) }

  predicate Merges(t: Tree, live: set<Path>, n: string) {
    Active(t, live, n) && Exists(t, live, Dst(n)) && n in MERGEABLE && IsDir(t, Src(n)) && IsDir(t, Dst(n))
  }

  predicate TopConflict(t: Tree, live: set<Path>, n: string) {
    Active(t, live, n) && Exists(t, live, Dst(n)) && !Merges(t, live, n)
  }

  /** A path at or below a legacy entry. */
  predicate InLegacy(p: Path) { |p| >= 2 && p[0] == "build" && Legacy(p[1]) }

  /** Where a path at or below a legacy entry lands. */
  function Target(p: Path): Path
    requires InLegacy(p)
  {
    ["build", Bucket(p[1])] + p[1..]
  }

  ghost predicate MoveKind(t: Tree, live: set<Path>, p: Path) {
    && InLegacy(p)
    && ((p == Src(p[1]) && TopMove(t, live, p[1])) || (Merges(t, live, p[1]) && MoveAt(t, Src(p[1]), Dst(p[1]), p)))
  }

  ghost predicate DupKind(t: Tree, live: set<Path>, p: Path) {
    InLegacy(p) && Merges(t, live, p[1]) && DupAt(t, Src(p[1]), Dst(p[1]), p)
  }

  ghost predicate PruneKind(t: Tree, live: set<Path>, p: Path) {
    InLegacy(p) && Merges(t, live, p[1]) && PruneAt(t, Src(p[1]), Dst(p[1]), p)
  }

  ghost predicate ConflictKind(t: Tree, live: set<Path>, p: Path) {
    && InLegacy(p)
    && ((p == Src(p[1]) && TopConflict(t, live, p[1]))
        || (Merges(t, live, p[1]) && ConflictAt(t, Src(p[1]), Dst(p[1]), p)))
  }

  /** The legacy vagrant directory moves: it is real, and its destination does not exist. */
  predicate VagrantMoves(t: Tree, live: set<Path>) { IsDir(t, VAGRANT_SRC) && !Exists(t, live, VAGRANT_DST) }

  /** The lists cover exactly the legacy entries in `names`. */
  ghost predicate TopCovers(
      t: Tree, live: set<Path>, names: set<string>, ms: Moves, ds: seq<Path>, ps: seq<Path>, cs: seq<Path>) {
    && Distinct(ms) && Distinct(ds) && PostOrder(ps)
    && (forall x :: x in ms ==> Below(BUILD, names, x.0) && MoveKind(t, live, x.0) && x.1 == Target(x.0))
    && (forall p :: Below(BUILD, names, p) && MoveKind(t, live, p) ==> (p, Target(p)) in ms)
    && (forall p :: p in ds <==> Below(BUILD, names, p) && DupKind(t, live, p))
    && (forall p :: p in ps <==> Below(BUILD, names, p) && PruneKind(t, live, p))
    && (forall p :: p in cs <==> Below(BUILD, names, p) && ConflictKind(t, live, p))
  }

  lemma {:induction false} TargetIsTo(p: Path)
    requires InLegacy(p)
    ensures Src(p[1]) <= p && Target(p) == To(Src(p[1]), Dst(p[1]), p)
    ensures p == Src(p[1]) ==> Target(p) == Dst(p[1])
  {
    assert p[..2] == Src(p[1]);
    assert p[1..] == [p[1]] + p[2..];
    assert ["build", Bucket(p[1])] + ([p[1]] + p[2..]) == Dst(p[1]) + p[2..];
  }

  lemma {:induction false} UnderSrc(n: string, p: Path)
    requires Legacy(n)
    ensures Src(n) <= p <==> InLegacy(p) && p[1] == n
    ensures Below(BUILD, {n}, p) <==> Src(n) <= p
  {
    if Src(n) <= p {
      assert p[0] == Src(n)[0] && p[1] == Src(n)[1];
    }
    if InLegacy(p) && p[1] == n {
      assert p[..2] == Src(n);
    }
    if Below(BUILD, {n}, p) {
      assert p[0] == BUILD[0];
      assert p[..2] == Src(n);
    }
    if Src(n) <= p {
      assert p[..1] == BUILD;
    }
  }

  lemma {:induction false} TopLeaf(
      t: Tree, live: set<Path>, n: string, ms: Moves, cs: seq<Path>)
    requires Legacy(n) && !Merges(t, live, n)
    requires ms == if TopMove(t, live, n) then [(Src(n), Dst(n))] else []
    requires cs == if TopConflict(t, live, n) then [Src(n)] else []
    ensures TopCovers(t, live, {n}, ms, [], [], cs)
  {
    hide MoveAt, DupAt, PruneAt, ConflictAt, Below, Exists, Legacy, Bucket;
    UnderSrc(n, Src(n));
    var s := Src(n);
    assert InLegacy(s) && s[1] == n;
    TargetIsTo(s);
    assert MoveKind(t, live, s) <==> TopMove(t, live, n);
    assert ConflictKind(t, live, s) <==> TopConflict(t, live, n);
    forall x ensures x in ms <==> TopMove(t, live, n) && x == (s, Dst(n)) {}
    forall x ensures x in cs <==> TopConflict(t, live, n) && x == s {}
    forall p ensures Below(BUILD, {n}, p) <==> InLegacy(p) && p[1] == n {
      UnderSrc(n, p);
    }
  }

  lemma {:induction false} TopMerge(
      t: Tree, live: set<Path>, n: string, ms: Moves, ds: seq<Path>, ps: seq<Path>, cs: seq<Path>)
    requires Closed(t) && Merges(t, live, n) && CoversAll(t, Src(n), Dst(n), ms, ds, ps, cs)
    ensures TopCovers(t, live, {n}, ms, ds, ps, cs)
  {
    hide MoveAt, DupAt, PruneAt, ConflictAt, Below, Exists, Closed, Legacy, Bucket, To, Target;
    CoversChildDir2(t, n, ms, ds, ps, cs);
    var s, d := Src(n), Dst(n);
    forall p ensures Below(BUILD, {n}, p) <==> InLegacy(p) && p[1] == n {
      UnderSrc(n, p);
    }
    forall p | InLegacy(p) && p[1] == n ensures s <= p && Target(p) == To(s, d, p) {
      TargetIsTo(p);
    }
    forall p ensures MoveAt(t, s, d, p) || DupAt(t, s, d, p) || PruneAt(t, s, d, p) || ConflictAt(t, s, d, p) ==> InLegacy(p) && p[1] == n {
      AtIsUnder(t, s, d, p);
      UnderSrc(n, p);
    }
  }

  lemma {:induction false} AtIsUnder(t: Tree, s: Path, d: Path, p: Path)
    ensures MoveAt(t, s, d, p) || DupAt(t, s, d, p) || PruneAt(t, s, d, p) || ConflictAt(t, s, d, p) ==> s <= p
  {
  }

  /** What a merge covers, said of all paths at and below its source. */
  lemma {:induction false} CoversChildDir2(
      t: Tree, n: string, ms: Moves, ds: seq<Path>, ps: seq<Path>, cs: seq<Path>)
    requires Closed(t) && Legacy(n) && CoversAll(t, Src(n), Dst(n), ms, ds, ps, cs)
    ensures Distinct(ms) && Distinct(ds) && PostOrder(ps)
    ensures forall x :: x in ms ==> Src(n) <= x.0 && MoveAt(t, Src(n), Dst(n), x.0) && x.1 == To(Src(n), Dst(n), x.0)
    ensures forall p :: MoveAt(t, Src(n), Dst(n), p) ==> (p, To(Src(n), Dst(n), p)) in ms
    ensures forall p :: p in ds <==> DupAt(t, Src(n), Dst(n), p)
    ensures forall p :: p in ps <==> PruneAt(t, Src(n), Dst(n), p)
    ensures forall p :: p in cs <==> ConflictAt(t, Src(n), Dst(n), p)
  {
    hide Closed;
    var s, d, init := Src(n), Dst(n), ps[..|ps| - 1];
    var names := ChildNames(t, s);
    forall p | s <= p && p != s && p in t ensures Below(s, names, p) {
      Longer(s, p);
      ChildIn(t, s, p);
    }
    assert s[|s|..] == [] && To(s, d, s) == d;
    assert PruneAt(t, s, d, s);
    assert ps == init + [s];
    forall i, j | 0 <= i < j < |ps| ensures !(ps[i] <= ps[j]) {
      if j == |init| {
        assert ps[i] in init;
      }
    }
    forall p ensures p in ps <==> PruneAt(t, s, d, p) {
      assert p in ps <==> p in init || p == s;
    }
  }

  lemma {:induction false} TopUnion(
      t: Tree, live: set<Path>, m: set<string>, n: set<string>,
      ms: Moves, ds: seq<Path>, ps: seq<Path>, cs: seq<Path>, ms': Moves, ds': seq<Path>, ps': seq<Path>,
      cs': seq<Path>)
    requires m !! n && TopCovers(t, live, m, ms, ds, ps, cs) && TopCovers(t, live, n, ms', ds', ps', cs')
    ensures TopCovers(t, live, m + n, ms + ms', ds + ds', ps + ps', cs + cs')
  {
    hide MoveKind, DupKind, ConflictKind, PruneKind, Target, InLegacy;
    forall p ensures Below(BUILD, m + n, p) <==> Below(BUILD, m, p) || Below(BUILD, n, p) {}
    forall i, j | 0 <= i < |ps| && 0 <= j < |ps'| ensures !(ps[i] <= ps'[j]) {
      assert ps[i] in ps && ps'[j] in ps';
    }
    DistinctUnion(ms, ms', BUILD, m, n);
    forall i, j | 0 <= i < |ds| && 0 <= j < |ds'| ensures ds[i] != ds'[j] {
      assert ds[i] in ds && ds'[j] in ds';
    }
    forall x ensures x in ms + ms' <==> x in ms || x in ms' {}
    forall x ensures x in ds + ds' <==> x in ds || x in ds' {}
    forall x ensures x in ps + ps' <==> x in ps || x in ps' {}
    forall x ensures x in cs + cs' <==> x in cs || x in cs' {}
  }

  /** Every name the loop visits: the fixed table and the DVD images found in build/. */
  function Names(t: Tree): set<string> { MIGRATION.Keys + set n | n in ChildNames(t, BUILD) && IsDvd(n) }

  lemma {:induction false} NamesSuffice(t: Tree, p: Path)
    requires Closed(t) && InLegacy(p) && Src(p[1]) in t
    ensures Below(BUILD, Names(t), p)
  {
    var c := Src(p[1]);
    assert BUILD <= c && c[1] == p[1];
    assert p[1] in ChildNames(t, BUILD);
    assert p[..1] == BUILD;
  }

  lemma {:induction false} SrcPresent(t: Tree, live: set<Path>, p: Path)
    requires MoveKind(t, live, p) || DupKind(t, live, p) || PruneKind(t, live, p) || ConflictKind(t, live, p)
    ensures InLegacy(p) && Src(p[1]) in t
  {
  }

  /** Covering the visited names covers everything. */
  lemma {:induction false} CoversEverything(
      t: Tree, live: set<Path>, ms: Moves, ds: seq<Path>, ps: seq<Path>, cs: seq<Path>)
    requires Closed(t) && TopCovers(t, live, Names(t), ms, ds, ps, cs)
    ensures Distinct(ms) && Distinct(ds) && PostOrder(ps)
    ensures forall x :: x in ms ==> MoveKind(t, live, x.0) && x.1 == Target(x.0)
    ensures forall p :: MoveKind(t, live, p) ==> (p, Target(p)) in ms
    ensures forall p :: p in ds <==> DupKind(t, live, p)
    ensures forall p :: p in ps <==> PruneKind(t, live, p)
    ensures forall p :: p in cs <==> ConflictKind(t, live, p)
  {
    hide MoveKind, DupKind, ConflictKind, PruneKind, Target, Names, Below, InLegacy, Closed;
    forall p | MoveKind(t, live, p) || DupKind(t, live, p) || PruneKind(t, live, p) || ConflictKind(t, live, p)
      ensures Below(BUILD, Names(t), p)
    {
      SrcPresent(t, live, p);
      NamesSuffice(t, p);
    }
  }
}
