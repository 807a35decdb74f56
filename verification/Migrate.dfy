/** A whole migration: the plan runs to its end and loses nothing, exactly when no legacy
    entry is renamed onto a different, dangling link. */
module Migrate {
  import opened Wrappers
  import opened FileTree
  import opened MigrationRun
  import opened MigrationPlan
  import opened Migration
  import opened MigrationAnswer

  /** The tree has a root, and neither build/ nor a bucket is a symbolic link. */
  ghost predicate MainCheckout(t: Tree) {
    && Closed(t) && IsDir(t, []) && (BUILD in t ==> !t[BUILD].Link?)
    && forall b :: IsBucket(b) && ["build", b] in t ==> !t[["build", b]].Link?
  }

  // ----- the planned lists --------------------------------------------------------------

  /** The lists of a plan without conflict. */
  ghost predicate Planned(t: Tree, live: set<Path>, ms: Moves, ds: seq<Path>, ps: seq<Path>) {
    && Distinct(ms) && Distinct(ds) && PostOrder(ps)
    && (forall x :: x in ms <==> PlannedMove(t, live, x))
    && (forall p :: p in ds <==> DupKind(t, live, p))
    && (forall p :: p in ps <==> PruneKind(t, live, p))
    && (forall p :: !ConflictKind(t, live, p))
  }

  ghost predicate PlannedMove(t: Tree, live: set<Path>, x: (Path, Path)) {
    || (MoveKind(t, live, x.0) && x.1 == Target(x.0))
    || (VagrantMoves(t, live) && x == (VAGRANT_SRC, VAGRANT_DST))
  }

  /** The subtrees a plan empties, with where each goes. */
  ghost predicate Root(t: Tree, live: set<Path>, s: Path, d: Path) {
    || (|s| == 2 && Active(t, live, s[1]) && s == Src(s[1]) && d == Dst(s[1]))
    || (VagrantMoves(t, live) && s == VAGRANT_SRC && d == VAGRANT_DST)
  }

  /** A rename would replace a link by something else. */
  ghost predicate Clobbers(t: Tree, live: set<Path>) {
    exists s, d :: Root(t, live, s, d) && d in t && t[d].Link? && d !in live && t[d] != t[s]
  }

  /** Something else than a directory stands where a bucket directory is needed. */
  ghost predicate Obstructed(t: Tree, live: set<Path>) {
    exists s, d :: Root(t, live, s, d) && !ParentReady(t, d)
  }

  lemma {:induction false} DifferAt(a: Path, b: Path, i: nat)
    requires i < |a| && i < |b| && a[i] != b[i]
    ensures !Nested(a, b)
  {
  }

  /** Where the paths of a planned move start. */
  lemma {:induction false} MoveShape(t: Tree, live: set<Path>, x: (Path, Path))
    requires PlannedMove(t, live, x)
    ensures MoveKind(t, live, x.0) && x.1 == Target(x.0) ==>
              |x.0| >= 2 && x.0[0] == "build" && Legacy(x.0[1])
              && |x.1| >= 3 && x.1[0] == "build" && x.1[1] == Bucket(x.0[1]) && x.1[2] == x.0[1]
    ensures x.0 in t && x.1 != []
  {
  }

  lemma {:induction false} SourceNotDestination(t: Tree, live: set<Path>, x: (Path, Path), y: (Path, Path))
    requires PlannedMove(t, live, x) && PlannedMove(t, live, y)
    ensures !Nested(x.0, y.1)
  {
    hide MoveKind, Legacy, Bucket, Target;
    MoveShape(t, live, x);
    MoveShape(t, live, y);
    if x == (VAGRANT_SRC, VAGRANT_DST) {
      DifferAt(x.0, y.1, 0);
    } else {
      BucketsAreNotLegacy(x.0[1]);
      if y != (VAGRANT_SRC, VAGRANT_DST) {
        BucketsAreNotLegacy(y.0[1]);
      }
      DifferAt(x.0, y.1, 1);
    }
  }

  lemma {:induction false} PlannedApart(t: Tree, live: set<Path>, x: (Path, Path), y: (Path, Path))
    requires Closed(t) && PlannedMove(t, live, x) && PlannedMove(t, live, y) && x != y
    ensures !Nested(x.0, y.0) && !Nested(x.1, y.1)
  {
    hide MoveKind, Legacy, Bucket, Target, Closed;
    MoveShape(t, live, x);
    MoveShape(t, live, y);
    var v := (VAGRANT_SRC, VAGRANT_DST);
    if x == v {
      BucketsAreNotLegacy(y.0[1]);
      DifferAt(x.0, y.0, 0);
      DifferAt(x.1, y.1, 2);
    } else if y == v {
      BucketsAreNotLegacy(x.0[1]);
      DifferAt(x.0, y.0, 0);
      DifferAt(x.1, y.1, 2);
    } else if x.0[1] != y.0[1] {
      DifferAt(x.0, y.0, 1);
      DifferAt(x.1, y.1, 2);
    } else {
      SameEntryApart(t, live, x.0, y.0);
    }
  }

  lemma {:induction false} SameEntryApart(t: Tree, live: set<Path>, p: Path, q: Path)
    requires Closed(t) && MoveKind(t, live, p) && MoveKind(t, live, q) && p[1] == q[1] && p != q
    ensures !Nested(p, q) && !Nested(Target(p), Target(q))
  {
    hide MoveAt, Exists, Legacy, Bucket, Closed;
    TargetIsTo(p);
    TargetIsTo(q);
    MovesApart(t, Src(p[1]), Dst(p[1]), p, q);
  }

  lemma {:induction false} MoveReady(t: Tree, live: set<Path>, x: (Path, Path))
    requires Closed(t) && PlannedMove(t, live, x)
    ensures x.0 in t && x.1 != [] && (x.1 in t ==> t[x.1].Link? && x.1 !in live)
    ensures Root(t, live, x.0, x.1) || ParentReady(t, x.1)
  {
    hide Legacy, Bucket, Closed;
    if MoveKind(t, live, x.0) && x.1 == Target(x.0) {
      TargetIsTo(x.0);
      if !Root(t, live, x.0, x.1) {
        assert MoveAt(t, Src(x.0[1]), Dst(x.0[1]), x.0);
        DirIsReady(t, x.1);
      }
    }
  }

  lemma {:induction false} DirIsReady(t: Tree, d: Path)
    requires Closed(t) && d != [] && IsDir(t, Parent(d))
    ensures ParentReady(t, d)
  {
    hide Closed;
    forall p | Above(p, d) && p in t ensures t[p].Dir? {
      AboveParent(d, p);
      if p != Parent(d) {
        AboveIsDir(t, p, Parent(d));
      }
    }
  }

  lemma {:induction false} PlannedReady(t: Tree, live: set<Path>, ms: Moves)
    requires Closed(t) && Distinct(ms) && forall x :: x in ms ==> PlannedMove(t, live, x)
    ensures Ready(t, ms)
  {
    hide PlannedMove, Closed, Nested, ParentReady, Root;
    forall x | x in ms ensures x.0 in t && x.1 != [] && (x.1 in t ==> t[x.1].Link?) {
      MoveReady(t, live, x);
    }
    forall x, y | x in ms && y in ms ensures !Nested(x.0, y.1) {
      SourceNotDestination(t, live, x, y);
    }
    forall i, j | 0 <= i < j < |ms| ensures !Nested(ms[i].0, ms[j].0) && !Nested(ms[i].1, ms[j].1) {
      assert ms[i] in ms && ms[j] in ms;
      PlannedApart(t, live, ms[i], ms[j]);
    }
  }

  lemma {:induction false} ClosedCheckout(t: Tree)
    requires MainCheckout(t)
    ensures Closed(t) && IsDir(t, [])
  {
  }

  // ----- duplicates and prunes survive the moves ----------------------------------------

  /** A path on which a merge matched both sides is untouched by every move. */
  lemma {:induction false} MatchedUntouched(t: Tree, live: set<Path>, ms: Moves, p: Path)
    requires Closed(t) && (forall x :: x in ms ==> PlannedMove(t, live, x))
    requires InLegacy(p) && Merges(t, live, p[1]) && Both(t, Src(p[1]), Dst(p[1]), p)
    ensures Untouched(ms, p)
  {
    hide Legacy, Bucket, Exists;
    forall x | x in ms ensures !(x.0 <= p) && !(x.1 <= p) {
      MoveShape(t, live, x);
      BucketsAreNotLegacy(p[1]);
      if x == (VAGRANT_SRC, VAGRANT_DST) {
        DifferAt(x.0, p, 0);
        DifferAt(x.1, p, 1);
      } else {
        BucketsAreNotLegacy(x.0[1]);
        DifferAt(x.1, p, 1);
        if x.0 <= p {
          assert x.0[1] == p[1];
          MatchedNotMoved(t, Src(p[1]), Dst(p[1]), x.0, p);
        }
      }
    }
  }

  lemma {:induction false} MatchedNotMoved(t: Tree, s: Path, d: Path, q: Path, p: Path)
    requires Closed(t) && MoveAt(t, s, d, q) && Both(t, s, d, p)
    ensures !(q <= p)
  {
    if q <= p {
      ToOrder(s, d, q, p);
      if q != p {
        AboveIsDir(t, To(s, d, q), To(s, d, p));
      }
    }
  }

  /** A legacy path lies under no destination. */
  lemma {:induction false} LegacyNotMade(t: Tree, live: set<Path>, ms: Moves, p: Path)
    requires (forall x :: x in ms ==> PlannedMove(t, live, x)) && InLegacy(p)
    ensures !Made(ms, p) && forall x :: x in ms ==> !(x.1 <= p) && !(p <= x.1)
  {
    hide Legacy, Bucket, MoveKind, Target;
    forall x | x in ms ensures !Nested(x.1, p) {
      MoveShape(t, live, x);
      BucketsAreNotLegacy(p[1]);
      if x != (VAGRANT_SRC, VAGRANT_DST) {
        BucketsAreNotLegacy(x.0[1]);
      }
      DifferAt(x.1, p, 1);
    }
  }

  lemma {:induction false} DuplicatesThere(t: Tree, live: set<Path>, ms: Moves, ds: seq<Path>, ps: seq<Path>, u: Tree)
    requires MainCheckout(t) && Planned(t, live, ms, ds, ps) && MovesResult(t, ms, u)
    ensures forall p :: p in ds ==> p in u && !u[p].Dir?
  {
    hide MoveKind, PruneKind, ConflictKind, PlannedMove, Untouched, Made, Merges;
    forall p | p in ds ensures p in u && !u[p].Dir? {
      assert DupKind(t, live, p);
      MatchedUntouched(t, live, ms, p);
      assert Look(u, p) == Look(t, p);
    }
  }

  lemma {:induction false} PrunesEmptied(
      t: Tree, live: set<Path>, ms: Moves, ds: seq<Path>, ps: seq<Path>, u: Tree, v: Tree)
    requires MainCheckout(t) && Planned(t, live, ms, ds, ps) && MovesResult(t, ms, u)
    requires forall p :: Look(v, p) == if p in ds then None else Look(u, p)
    ensures Emptied(v, ps)
  {
    hide MoveKind, DupKind, ConflictKind, PlannedMove, Untouched, Made, MovesResult, PruneKind;
    forall i, j | 0 <= i < j < |ps| ensures ps[i] != ps[j] {
      assert !(ps[i] <= ps[j]);
    }
    forall k | 0 <= k < |ps| ensures IsDir(v, ps[k]) {
      assert ps[k] in ps;
      PruneThere(t, live, ms, ds, ps, u, ps[k]);
    }
    forall k, q | 0 <= k < |ps| && q in v && ps[k] <= q && q != ps[k]
      ensures exists j :: 0 <= j < k && ps[j] == q
    {
      assert ps[k] in ps && PruneKind(t, live, ps[k]);
      assert Look(v, q) == Look(u, q);
      LeftInside(t, live, ms, ds, ps, u, ps[k], q);
      var j :| 0 <= j < |ps| && ps[j] == q;
      PostOrdered(ps, k, j);
    }
  }

  lemma {:induction false} PostOrdered(ps: seq<Path>, k: nat, j: nat)
    requires PostOrder(ps) && k < |ps| && j < |ps| && ps[k] <= ps[j]
    ensures j <= k
  {
  }

  lemma {:induction false} PruneThere(
      t: Tree, live: set<Path>, ms: Moves, ds: seq<Path>, ps: seq<Path>, u: Tree, p: Path)
    requires MainCheckout(t) && Planned(t, live, ms, ds, ps) && MovesResult(t, ms, u) && p in ps
    ensures IsDir(u, p) && p !in ds
  {
    hide MoveKind, ConflictKind, PlannedMove, Untouched, Made, Merges;
    assert PruneKind(t, live, p);
    MatchedUntouched(t, live, ms, p);
    assert Look(u, p) == Look(t, p);
  }

  /** After the moves and unlinks, all that is left inside a pruned directory is pruned too. */
  lemma {:induction false} LeftInside(
      t: Tree, live: set<Path>, ms: Moves, ds: seq<Path>, ps: seq<Path>, u: Tree, p: Path, q: Path)
    requires MainCheckout(t) && Planned(t, live, ms, ds, ps) && MovesResult(t, ms, u)
    requires PruneKind(t, live, p) && p <= q && q in u && q !in ds
    ensures q in ps
  {
    hide MoveKind, DupKind, PruneKind, ConflictKind, MovesResult, Legacy, Bucket, PlannedMove, MainCheckout;
    PruneInside(t, live, p, q);
    var n := p[1];
    ClosedCheckout(t);
    Remained(t, live, ms, u, q);
    NoConflictBelow(t, live, n);
    MergeLeftover(t, live, ms, n, q);
    assert !DupKind(t, live, q);
  }

  lemma {:induction false} PruneInside(t: Tree, live: set<Path>, p: Path, q: Path)
    requires PruneKind(t, live, p) && p <= q
    ensures InLegacy(p) && Merges(t, live, p[1]) && InLegacy(q) && q[1] == p[1]
  {
    assert q[0] == p[0] && q[1] == p[1];
  }

  /** A legacy path that is there after the moves was there before, under no move. */
  lemma {:induction false} Remained(t: Tree, live: set<Path>, ms: Moves, u: Tree, q: Path)
    requires (forall x :: x in ms ==> PlannedMove(t, live, x)) && MovesResult(t, ms, u) && InLegacy(q) && q in u
    ensures q in t && forall x :: x in ms ==> !(x.0 <= q)
  {
    hide Untouched, Made, Legacy, Bucket, PlannedMove;
    LegacyNotMade(t, live, ms, q);
    forall x | x in ms ensures !(x.0 <= q) {
    }
    UntouchedIs(ms, q);
    assert Look(u, q) == Look(t, q);
  }

  lemma {:induction false} MergeLeftover(t: Tree, live: set<Path>, ms: Moves, n: string, q: Path)
    requires Closed(t) && Legacy(n) && Merges(t, live, n) && InLegacy(q) && q[1] == n && q in t
    requires (forall x :: PlannedMove(t, live, x) ==> x in ms) && forall x :: x in ms ==> !(x.0 <= q)
    requires forall p :: !ConflictAt(t, Src(n), Dst(n), p)
    ensures PruneKind(t, live, q) || DupKind(t, live, q)
  {
    hide Exists, Legacy, Bucket, MoveAt, DupAt, PruneAt, ConflictAt, PlannedMove, Closed;
    UnderSrc(n, q);
    FateOf(t, Src(n), Dst(n), q);
    forall x | MoveAt(t, Src(n), Dst(n), x) ensures !(x <= q) {
      MergeMovePlanned(t, live, n, x);
      assert (x, Target(x)) in ms;
    }
  }

  lemma {:induction false} UntouchedIs(ms: Moves, q: Path)
    requires forall x :: x in ms ==> !(x.0 <= q) && !(x.1 <= q)
    ensures Untouched(ms, q)
  {
  }

  lemma {:induction false} NoConflictBelow(t: Tree, live: set<Path>, n: string)
    requires Legacy(n) && Merges(t, live, n) && forall p :: !ConflictKind(t, live, p)
    ensures forall p :: !ConflictAt(t, Src(n), Dst(n), p)
  {
    hide Legacy, Bucket, Merges, Exists;
    forall p ensures !ConflictAt(t, Src(n), Dst(n), p) {
      AtIsUnder(t, Src(n), Dst(n), p);
      UnderSrc(n, p);
      assert !ConflictKind(t, live, p);
    }
  }

  lemma {:induction false} MergeMovePlanned(t: Tree, live: set<Path>, n: string, x: Path)
    requires Legacy(n) && Merges(t, live, n) && MoveAt(t, Src(n), Dst(n), x)
    ensures InLegacy(x) && x[1] == n && MoveKind(t, live, x) && PlannedMove(t, live, (x, Target(x)))
  {
    hide Legacy, Bucket, Merges, Exists;
    UnderSrc(n, x);
  }

  // ----- what a migration leaves --------------------------------------------------------

  /** The lossless result: every node of an emptied subtree stands at its new place, nothing
      of it is left behind, everything else is as it was, and nothing else appears but
      build/ and the bucket directories. */
  ghost predicate Migrated(t: Tree, live: set<Path>, t': Tree) {
    && (forall s, d, p :: Root(t, live, s, d) && s <= p && p in t ==> p !in t' && Look(t', To(s, d, p)) == Look(t, p))
    && (forall p :: p in t && Outside(t, live, p) ==> Look(t', p) == Look(t, p))
    && (forall p :: p in t' ==> p in t || Arrived(t, live, p) || (t'[p].Dir? && exists s, d :: Root(t, live, s, d) && Above(p, d)))
  }

  ghost predicate Outside(t: Tree, live: set<Path>, p: Path) { forall s, d :: Root(t, live, s, d) ==> !(s <= p) }

  ghost predicate Arrived(t: Tree, live: set<Path>, p: Path) {
    exists s, d, q :: Root(t, live, s, d) && s <= q && q in t && p == To(s, d, q)
  }

  /** The tree after a run, path by path. */
  ghost predicate RunResult(t: Tree, ms: Moves, ds: seq<Path>, ps: seq<Path>, t': Tree) {
    exists u :: MovesResult(t, ms, u) && forall p :: Look(t', p) == if p in ds || p in ps then None else Look(u, p)
  }

  /** The plan runs to its end unless a directory would replace a link, or something else than
      a directory stands above a destination. */
  lemma {:induction false} PlanRuns(t: Tree, live: set<Path>, ms: Moves, ds: seq<Path>, ps: seq<Path>)
    requires MainCheckout(t) && Planned(t, live, ms, ds, ps)
    ensures Run(t, ms, ds, ps).Some? <==> forall x :: x in ms ==> !Blocked(t, x) && ParentReady(t, x.1)
    ensures Run(t, ms, ds, ps).Some? ==> RunResult(t, ms, ds, ps, Run(t, ms, ds, ps).value)
  {
    hide MainCheckout, MovesResult, Blocked, Emptied, PlannedMove, DupKind, PruneKind, ConflictKind, RunMoves,
         RunUnlinks, RunRmdirs, ParentReady;
    ClosedCheckout(t);
    PlannedReady(t, live, ms);
    MovesRun(t, ms);
    if RunMoves(t, ms).Some? {
      var u := RunMoves(t, ms).value;
      DuplicatesThere(t, live, ms, ds, ps, u);
      UnlinksRun(u, ds);
      var v := RunUnlinks(u, ds).value;
      PrunesEmptied(t, live, ms, ds, ps, u, v);
      RmdirsRun(v, ps);
    }
  }

  /** A path of an emptied subtree is moved, dropped or pruned, and its new place holds it. */
  lemma {:induction false} RootFate(
      t: Tree, live: set<Path>, ms: Moves, ds: seq<Path>, ps: seq<Path>, s: Path, d: Path, p: Path)
    requires MainCheckout(t) && Planned(t, live, ms, ds, ps) && Root(t, live, s, d) && s <= p && p in t
    ensures p in ds || p in ps || exists x :: x in ms && x.0 <= p
    ensures (p in ds || p in ps) && !(exists x :: x in ms && x.0 <= p) ==> To(s, d, p) in t && t[To(s, d, p)] == t[p]
    ensures forall x :: x in ms && x.0 <= p ==> x.1 <= To(s, d, p) && x.0 + To(s, d, p)[|x.1|..] == p
  {
    hide MainCheckout, MoveAt, Exists, Legacy, Bucket;
    ClosedCheckout(t);
    if s == VAGRANT_SRC {
      VagrantFate(t, live, ms, p);
      forall x | x in ms && x.0 <= p ensures x.1 <= To(s, d, p) && x.0 + To(s, d, p)[|x.1|..] == p {
        OneRootMove(t, live, ms, s, d, x, p);
      }
      assert !InLegacy(p);
    } else {
      var n := s[1];
      UnderSrc(n, p);
      if TopMove(t, live, n) {
        TargetIsTo(s);
        assert MoveKind(t, live, s) && PlannedMove(t, live, (s, d)) && (s, d) in ms;
      } else {
        assert InLegacy(s) && s == Src(s[1]) && !ConflictKind(t, live, s);
        assert Merges(t, live, n);
        NoConflictBelow(t, live, n);
        FateOf(t, s, d, p);
        if PruneAt(t, s, d, p) || DupAt(t, s, d, p) {
          assert PruneKind(t, live, p) || DupKind(t, live, p);
        } else {
          var x :| MoveAt(t, s, d, x) && x <= p;
          MergeMovePlanned(t, live, n, x);
          assert (x, Target(x)) in ms;
        }
      }
      forall x | x in ms && x.0 <= p ensures x.1 <= To(s, d, p) && x.0 + To(s, d, p)[|x.1|..] == p {
        OneRootMove(t, live, ms, s, d, x, p);
      }
    }
  }

  lemma {:induction false} VagrantFate(t: Tree, live: set<Path>, ms: Moves, p: Path)
    requires VagrantMoves(t, live) && VAGRANT_SRC <= p && forall x :: PlannedMove(t, live, x) ==> x in ms
    ensures exists x :: x in ms && x.0 <= p
  {
    assert PlannedMove(t, live, (VAGRANT_SRC, VAGRANT_DST));
  }

  /** A move that takes a path of a root takes it where the root goes. */
  lemma {:induction false} OneRootMove(
      t: Tree, live: set<Path>, ms: Moves, s: Path, d: Path, x: (Path, Path), p: Path)
    requires Root(t, live, s, d) && s <= p && PlannedMove(t, live, x) && x.0 <= p
    ensures x.1 <= To(s, d, p) && x.0 + To(s, d, p)[|x.1|..] == p
    ensures s <= x.0 && x.1 == To(s, d, x.0)
  {
    hide MoveAt, Exists, Legacy, Bucket, MoveKind, To, Target;
    SameRoot(t, live, s, d, x, p);
    ToOrder(s, d, x.0, p);
    hide Root, PlannedMove;
    ToTail(s, d, x.0, p);
  }

  lemma {:induction false} SameRoot(t: Tree, live: set<Path>, s: Path, d: Path, x: (Path, Path), p: Path)
    requires Root(t, live, s, d) && s <= p && PlannedMove(t, live, x) && x.0 <= p
    ensures s <= x.0 && x.1 == To(s, d, x.0)
  {
    hide MoveAt, Exists, Legacy, Bucket, MoveKind;
    MoveShape(t, live, x);
    if x == (VAGRANT_SRC, VAGRANT_DST) {
      assert p[0] == "lab";
      assert s[0] == p[0];
      assert s == VAGRANT_SRC;
      assert x.0[|s|..] == [];
    } else {
      assert p[0] == x.0[0] && p[1] == x.0[1] && s[0] == p[0];
      assert s != VAGRANT_SRC;
      assert s[1] == p[1];
      TargetIsTo(x.0);
    }
  }

  lemma {:induction false} ToTail(s: Path, d: Path, q: Path, p: Path)
    requires s <= q <= p
    ensures To(s, d, p) == To(s, d, q) + p[|q|..] && To(s, d, q) <= To(s, d, p)
    ensures q + To(s, d, p)[|To(s, d, q)|..] == p
  {
    assert p[|s|..] == q[|s|..] + p[|q|..];
    assert To(s, d, p) == To(s, d, q) + p[|q|..];
  }

  /** A move's source lies in a root. */
  lemma {:induction false} MoveHasRoot(t: Tree, live: set<Path>, x: (Path, Path)) returns (s: Path, d: Path)
    requires PlannedMove(t, live, x)
    ensures Root(t, live, s, d) && s <= x.0 && x.1 == To(s, d, x.0)
    ensures d <= x.1 && |d| > 0
  {
    hide MoveAt, Exists, Legacy, Bucket;
    if MoveKind(t, live, x.0) && x.1 == Target(x.0) {
      s, d := Src(x.0[1]), Dst(x.0[1]);
      TargetIsTo(x.0);
      assert s[1] == x.0[1];
    } else {
      s, d := VAGRANT_SRC, VAGRANT_DST;
      assert x.0[|s|..] == [];
    }
  }

  /** A destination that is no root's source. */
  lemma {:induction false} DestinationOutside(t: Tree, live: set<Path>, s: Path, d: Path, s': Path, d': Path, p: Path)
    requires Root(t, live, s, d) && Root(t, live, s', d') && d <= p
    ensures !(s' <= p)
  {
    hide Exists, Legacy, Bucket;
    if s != VAGRANT_SRC {
      BucketsAreNotLegacy(s[1]);
    }
    if s' != VAGRANT_SRC {
      BucketsAreNotLegacy(s'[1]);
    }
    assert d[0] == "build" && IsBucket(d[1]) && p[0] == d[0] && p[1] == d[1];
    if s' == VAGRANT_SRC {
      DifferAt(s', p, 0);
    } else {
      DifferAt(s', p, 1);
    }
  }

  /** When no move replaces a different link, the run loses nothing. */
  lemma {:induction false} RunIsLossless(
      t: Tree, live: set<Path>, ms: Moves, ds: seq<Path>, ps: seq<Path>, u: Tree, t': Tree)
    requires MainCheckout(t) && Planned(t, live, ms, ds, ps) && MovesResult(t, ms, u) && !Clobbers(t, live)
    requires forall p :: Look(t', p) == if p in ds || p in ps then None else Look(u, p)
    ensures Migrated(t, live, t')
  {
    hide MainCheckout, MovesResult, Planned, Clobbers, Root, Outside, Arrived;
    forall s, d, p | Root(t, live, s, d) && s <= p && p in t
      ensures p !in t' && Look(t', To(s, d, p)) == Look(t, p)
    {
      RootPathMoved(t, live, ms, ds, ps, u, t', s, d, p);
    }
    forall p | p in t && Outside(t, live, p) ensures Look(t', p) == Look(t, p) {
      OutsideKept(t, live, ms, ds, ps, u, t', p);
    }
    forall p | p in t'
      ensures p in t || Arrived(t, live, p) || (t'[p].Dir? && exists s, d :: Root(t, live, s, d) && Above(p, d))
    {
      assert Look(t', p) == Look(u, p);
      WhereFrom(t, live, ms, ds, ps, u, p);
    }
  }

  lemma {:induction false} RootPathMoved(
      t: Tree, live: set<Path>, ms: Moves, ds: seq<Path>, ps: seq<Path>, u: Tree, t': Tree, s: Path, d: Path, p: Path)
    requires MainCheckout(t) && Planned(t, live, ms, ds, ps) && MovesResult(t, ms, u) && !Clobbers(t, live)
    requires forall p :: Look(t', p) == if p in ds || p in ps then None else Look(u, p)
    requires Root(t, live, s, d) && s <= p && p in t
    ensures p !in t' && Look(t', To(s, d, p)) == Look(t, p)
  {
    hide MainCheckout, Root, PlannedMove, DupKind, PruneKind, ConflictKind, Untouched, Made, Clobbers;
    RootFate(t, live, ms, ds, ps, s, d, p);
    var q := To(s, d, p);
    BucketNotListed(t, live, ms, ds, ps, s, d, q);
    if exists x :: x in ms && x.0 <= p {
      var x :| x in ms && x.0 <= p;
      assert Look(u, q) == Look(t, x.0 + q[|x.1|..]);
      assert p !in u;
      assert Look(t', p) == None;
    } else {
      assert Look(t', p) == None;
      BucketNotMoved(t, live, ms, s, d, q);
      BucketKept(t, live, ms, ds, ps, u, q);
    }
    assert Look(t', q) == Look(u, q);
  }

  lemma {:induction false} BucketNotMoved(t: Tree, live: set<Path>, ms: Moves, s: Path, d: Path, q: Path)
    requires (forall x :: x in ms ==> PlannedMove(t, live, x)) && Root(t, live, s, d) && d <= q
    ensures forall x :: x in ms ==> !(x.0 <= q)
  {
    hide PlannedMove, Root;
    forall x | x in ms ensures !(x.0 <= q) {
      var s', d' := MoveHasRoot(t, live, x);
      DestinationOutside(t, live, s, d, s', d', q);
      if x.0 <= q {
        PrefixTrans(s', x.0, q);
      }
    }
  }

  lemma {:induction false} BucketNotListed(
      t: Tree, live: set<Path>, ms: Moves, ds: seq<Path>, ps: seq<Path>, s: Path, d: Path, q: Path)
    requires Planned(t, live, ms, ds, ps) && Root(t, live, s, d) && d <= q
    ensures q !in ds && q !in ps && !InLegacy(q)
  {
    hide Exists, Legacy, Bucket, Merges, DupAt, PruneAt;
    if s != VAGRANT_SRC {
      BucketsAreNotLegacy(s[1]);
    }
    assert d[0] == "build" && IsBucket(d[1]) && q[1] == d[1];
    if InLegacy(q) {
      BucketsAreNotLegacy(q[1]);
    }
    assert !DupKind(t, live, q) && !PruneKind(t, live, q);
  }

  /** A path that exists and is under no move's source is still there with its content,
      when no move replaces a different link. */
  lemma {:induction false} BucketKept(
      t: Tree, live: set<Path>, ms: Moves, ds: seq<Path>, ps: seq<Path>, u: Tree, q: Path)
    requires MainCheckout(t) && Planned(t, live, ms, ds, ps) && MovesResult(t, ms, u) && !Clobbers(t, live)
    requires q in t && forall x :: x in ms ==> !(x.0 <= q)
    ensures Look(u, q) == Look(t, q)
  {
    hide DupKind, PruneKind, ConflictKind, PlannedMove, Untouched, Made, Root, MainCheckout;
    if x :| x in ms && x.1 <= q {
      ReplacedSame(t, live, x, q);
      assert Look(u, q) == Look(t, x.0 + q[|x.1|..]);
    } else {
      UntouchedIs(ms, q);
    }
  }

  lemma {:induction false} ReplacedSame(t: Tree, live: set<Path>, x: (Path, Path), q: Path)
    requires MainCheckout(t) && PlannedMove(t, live, x) && !Clobbers(t, live) && q in t && x.1 <= q
    ensures Look(t, x.0 + q[|x.1|..]) == Look(t, q)
  {
    hide PlannedMove, Root;
    ClosedCheckout(t);
    MoveReady(t, live, x);
    if q != x.1 {
      AboveIsDir(t, x.1, q);
    }
    ReplacedIsRoot(t, live, x);
    assert x.0 + q[|x.1|..] == x.0;
  }

  /** Only a root itself, never a path inside a merge, can land on something. */
  lemma {:induction false} ReplacedIsRoot(t: Tree, live: set<Path>, x: (Path, Path))
    requires PlannedMove(t, live, x) && x.1 in t
    ensures Root(t, live, x.0, x.1)
  {
    hide Exists, Legacy, Bucket;
    if MoveKind(t, live, x.0) && x.1 == Target(x.0) {
      TargetIsTo(x.0);
    }
  }

  lemma {:induction false} OutsideKept(
      t: Tree, live: set<Path>, ms: Moves, ds: seq<Path>, ps: seq<Path>, u: Tree, t': Tree, p: Path)
    requires MainCheckout(t) && Planned(t, live, ms, ds, ps) && MovesResult(t, ms, u) && !Clobbers(t, live)
    requires forall p :: Look(t', p) == if p in ds || p in ps then None else Look(u, p)
    requires p in t && Outside(t, live, p)
    ensures Look(t', p) == Look(t, p)
  {
    hide MainCheckout, Root, PlannedMove, MovesResult, Clobbers, MoveAt, DupAt, PruneAt, Exists, Legacy, Bucket;
    forall x | x in ms ensures !(x.0 <= p) {
      var s, d := MoveHasRoot(t, live, x);
      if x.0 <= p {
        PrefixTrans(s, x.0, p);
      }
    }
    BucketKept(t, live, ms, ds, ps, u, p);
    if DupKind(t, live, p) || PruneKind(t, live, p) {
      ListedInRoot(t, live, p);
    }
  }

  lemma {:induction false} ListedInRoot(t: Tree, live: set<Path>, p: Path)
    requires DupKind(t, live, p) || PruneKind(t, live, p)
    ensures exists s, d :: Root(t, live, s, d) && s <= p
  {
    hide Exists, Legacy, Bucket, DupAt, PruneAt;
    UnderSrc(p[1], p);
    var s, d := Src(p[1]), Dst(p[1]);
    assert s[1] == p[1];
    assert Root(t, live, s, d) && s <= p;
  }

  lemma {:induction false} WhereFrom(
      t: Tree, live: set<Path>, ms: Moves, ds: seq<Path>, ps: seq<Path>, u: Tree, p: Path)
    requires MainCheckout(t) && Planned(t, live, ms, ds, ps) && MovesResult(t, ms, u) && p in u
    ensures p in t || Arrived(t, live, p) || (u[p].Dir? && exists s, d :: Root(t, live, s, d) && Above(p, d))
  {
    hide MainCheckout, Root, PlannedMove, DupKind, PruneKind, ConflictKind, Look, Above, Arrived;
    if x :| x in ms && x.1 <= p {
      var q := x.0 + p[|x.1|..];
      assert Look(u, p) == Look(t, q);
      LookIn(u, t, p, q);
      ArrivedByMove(t, live, x, p);
    } else {
      assert forall x :: x in ms && x.0 <= p ==> p !in u;
      UntouchedIs(ms, p);
      if p !in t {
        LookNone(u, t, ms, p);
        var x :| x in ms && Above(p, x.1);
        ClosedCheckout(t);
        MadeIsBucket(t, live, x, p);
      }
    }
  }

  lemma {:induction false} ArrivedByMove(t: Tree, live: set<Path>, x: (Path, Path), p: Path)
    requires PlannedMove(t, live, x) && x.1 <= p && x.0 + p[|x.1|..] in t
    ensures Arrived(t, live, p)
  {
    hide Root, PlannedMove, To;
    var s, d := MoveHasRoot(t, live, x);
    var q := x.0 + p[|x.1|..];
    PrefixTrans(s, x.0, q);
    ToTail(s, d, x.0, q);
    assert q[|x.0|..] == p[|x.1|..];
    assert Root(t, live, s, d) && s <= q && q in t && p == To(s, d, q);
  }

  lemma {:induction false} LookIn(u: Tree, t: Tree, p: Path, q: Path)
    requires Look(u, p) == Look(t, q) && p in u
    ensures q in t && t[q] == u[p]
  {
  }

  lemma {:induction false} LookNone(u: Tree, t: Tree, ms: Moves, p: Path)
    requires p in u && p !in t && Look(u, p) == if p !in t && Made(ms, p) then Some(Dir) else Look(t, p)
    ensures Made(ms, p) && u[p].Dir?
  {
  }

  /** A directory that had to be made is on the way to a top-level destination. */
  lemma {:induction false} MadeIsBucket(t: Tree, live: set<Path>, x: (Path, Path), p: Path)
    requires Closed(t) && PlannedMove(t, live, x) && Above(p, x.1) && p !in t
    ensures exists s, d :: Root(t, live, s, d) && Above(p, d)
  {
    hide Exists, Legacy, Bucket, Closed;
    if MoveKind(t, live, x.0) && x.1 == Target(x.0) {
      TargetIsTo(x.0);
      if !Root(t, live, x.0, x.1) {
        assert MoveAt(t, Src(x.0[1]), Dst(x.0[1]), x.0);
        AboveParent(x.1, p);
        assert p != Parent(x.1);
        AboveIsDir(t, p, Parent(x.1));
        assert false;
      }
      assert Root(t, live, x.0, x.1) && Above(p, x.1);
    } else {
      assert Root(t, live, VAGRANT_SRC, VAGRANT_DST) && Above(p, VAGRANT_DST);
    }
  }

  // ----- exactly when ------------------------------------------------------------------

  /** A plan that would replace a different link either fails or loses that link. */
  lemma {:induction false} ClobberLoses(
      t: Tree, live: set<Path>, ms: Moves, ds: seq<Path>, ps: seq<Path>, u: Tree, t': Tree)
    requires MainCheckout(t) && Planned(t, live, ms, ds, ps) && MovesResult(t, ms, u) && Clobbers(t, live)
    requires forall p :: Look(t', p) == if p in ds || p in ps then None else Look(u, p)
    ensures !Migrated(t, live, t')
  {
    hide MainCheckout, DupKind, PruneKind, ConflictKind, Untouched, Made;
    var s, d :| Root(t, live, s, d) && d in t && t[d].Link? && d !in live && t[d] != t[s];
    RootMovePlanned(t, live, s, d);
    assert (s, d) in ms;
    BucketNotListed(t, live, ms, ds, ps, s, d, d);
    assert d[|d|..] == [] && s + [] == s;
    assert Look(u, d) == Look(t, s);
    assert Look(t', d) == Look(u, d);
    forall s', d' | Root(t, live, s', d') ensures !(s' <= d) {
      DestinationOutside(t, live, s, d, s', d', d);
    }
    assert Outside(t, live, d);
    assert Look(t', d) != Look(t, d);
  }

  lemma {:induction false} RootMovePlanned(t: Tree, live: set<Path>, s: Path, d: Path)
    requires Root(t, live, s, d) && (d in t ==> t[d].Link? && d !in live)
    ensures s in t && PlannedMove(t, live, (s, d))
  {
    hide Legacy, Bucket, MoveAt;
    if s != VAGRANT_SRC {
      TargetIsTo(s);
      assert TopMove(t, live, s[1]) && MoveKind(t, live, s);
    }
  }

  /** An obstructed destination belongs to a planned move. */
  lemma {:induction false} ObstructedMove(t: Tree, live: set<Path>) returns (x: (Path, Path))
    requires Closed(t) && Obstructed(t, live)
    ensures PlannedMove(t, live, x) && !ParentReady(t, x.1)
  {
    hide Root, PlannedMove, Closed;
    var s, d :| Root(t, live, s, d) && !ParentReady(t, d);
    if d in t {
      var p :| Above(p, d) && p in t && !t[p].Dir?;
      AboveIsDir(t, p, d);
    }
    RootMovePlanned(t, live, s, d);
    x := (s, d);
  }

  /** Without such a link or obstruction, no move is blocked. */
  lemma {:induction false} NothingBlocked(t: Tree, live: set<Path>, ms: Moves)
    requires Closed(t) && !Clobbers(t, live) && !Obstructed(t, live) && forall x :: x in ms ==> PlannedMove(t, live, x)
    ensures forall x :: x in ms ==> !Blocked(t, x) && ParentReady(t, x.1)
  {
    hide PlannedMove, Root, Closed, ParentReady;
    forall x | x in ms ensures !Blocked(t, x) && ParentReady(t, x.1) {
      MoveReady(t, live, x);
      if x.1 in t {
        ReplacedIsRoot(t, live, x);
      }
    }
  }

  /** The exact condition, for every checkout: the plan runs to its end and loses nothing if
      and only if no legacy entry would be renamed onto a different, dangling link, and no file
      stands where a bucket directory is needed. */
  lemma {:induction false} LosslessIff(t: Tree, live: set<Path>, ms: Moves, ds: seq<Path>, ps: seq<Path>)
    requires MainCheckout(t) && Planned(t, live, ms, ds, ps)
    ensures (Run(t, ms, ds, ps).Some? && Migrated(t, live, Run(t, ms, ds, ps).value)) <==> !Clobbers(t, live) && !Obstructed(t, live)
  {
    hide MainCheckout, MovesResult, Blocked, PlannedMove, DupKind, PruneKind, ConflictKind, Run, Migrated, Clobbers, Obstructed,
         ParentReady;
    ClosedCheckout(t);
    PlanRuns(t, live, ms, ds, ps);
    if Obstructed(t, live) {
      var x := ObstructedMove(t, live);
      assert x in ms;
    } else if !Clobbers(t, live) {
      NothingBlocked(t, live, ms);
    }
    if Run(t, ms, ds, ps).Some? {
      var t' := Run(t, ms, ds, ps).value;
      var u :| MovesResult(t, ms, u) && forall p :: Look(t', p) == if p in ds || p in ps then None else Look(u, p);
      if Clobbers(t, live) {
        ClobberLoses(t, live, ms, ds, ps, u, t');
      } else {
        RunIsLossless(t, live, ms, ds, ps, u, t');
      }
    }
  }

  /** A checkout on which the migration does lose something: a legacy inventory, and in the
      work bucket a dangling link of the same name. */
  function LostLink(bytes: seq<bv8>): Tree {
    map[[] := Dir, BUILD := Dir, ["build", "work"] := Dir,
        ["build", "inventory.ini"] := File(bytes), ["build", "work", "inventory.ini"] := Link("gone")]
  }

  lemma {:induction false} InventoryIsLegacy()
    ensures Legacy("inventory.ini") && Bucket("inventory.ini") == "work"
  {
  }

  lemma {:induction false} LostLinkNodes(bytes: seq<bv8>)
    ensures var t := LostLink(bytes); Look(t, []) == Look(t, BUILD) == Look(t, ["build", "work"]) == Some(Dir)
    ensures Look(LostLink(bytes), ["build", "inventory.ini"]) == Some(File(bytes))
    ensures Look(LostLink(bytes), ["build", "work", "inventory.ini"]) == Some(Link("gone"))
    ensures forall p :: p in LostLink(bytes) ==>
              p in {[], BUILD, ["build", "work"], ["build", "inventory.ini"], ["build", "work", "inventory.ini"]}
  {
  }

  lemma {:induction false} LostLinkIsCheckout(bytes: seq<bv8>)
    ensures MainCheckout(LostLink(bytes))
  {
    hide LostLink;
    LostLinkNodes(bytes);
    var t := LostLink(bytes);
    assert Parent(BUILD) == [] && Parent(["build", "work"]) == BUILD && Parent(["build", "inventory.ini"]) == BUILD;
    assert Parent(["build", "work", "inventory.ini"]) == ["build", "work"];
    forall b | IsBucket(b) && ["build", b] in t ensures t[["build", b]].Dir? {
      assert ["build", b][1] == b;
    }
  }

  /** The plan of a checkout whose one legacy entry is an inventory. */
  function InventoryPlan(): Moves { [(["build", "inventory.ini"], ["build", "work", "inventory.ini"])] }

  lemma {:induction false} InventoryIsPlanned(t: Tree)
    requires Exists(t, {}, ["build", "inventory.ini"]) && !Exists(t, {}, ["build", "work", "inventory.ini"])
    requires VAGRANT_SRC !in t && forall n :: Legacy(n) && Src(n) in t ==> n == "inventory.ini"
    ensures Planned(t, {}, InventoryPlan(), [], [])
  {
    hide Legacy, Bucket, MoveAt, DupAt, PruneAt, ConflictAt;
    InventoryIsLegacy();
    var n := "inventory.ini";
    var s := Src(n);
    assert s[1] == n && InLegacy(s) && s == ["build", n] && Dst(n) == ["build", "work", n];
    TargetIsTo(s);
    assert TopMove(t, {}, n) && !Merges(t, {}, n) && !TopConflict(t, {}, n);
    assert MoveKind(t, {}, s);
    forall p ensures !DupKind(t, {}, p) && !PruneKind(t, {}, p) && !ConflictKind(t, {}, p) && (MoveKind(t, {}, p) <==> p == s) {
      if InLegacy(p) && Active(t, {}, p[1]) {
        assert p[1] == n;
      }
    }
  }

  lemma {:induction false} TwoLevels(n: string)
    requires Legacy(n) && Src(n) in {[], BUILD, ["build", "work"], ["build", "inventory.ini"], ["build", "work", "inventory.ini"]}
    ensures n == "inventory.ini"
  {
    BucketsAreNotLegacy(n);
    assert Src(n)[1] == n;
    assert |Src(n)| == 2;
  }

  /** On it the condition fails: the plan runs to its end and the legacy file lands on the
      link, and so does every plan. */
  lemma {:induction false} DanglingLinkIsLost(bytes: seq<bv8>, ms: Moves, ds: seq<Path>, ps: seq<Path>)
    ensures MainCheckout(LostLink(bytes)) && Clobbers(LostLink(bytes), {})
    ensures Planned(LostLink(bytes), {}, InventoryPlan(), [], [])
    ensures Planned(LostLink(bytes), {}, ms, ds, ps) ==>
              Run(LostLink(bytes), ms, ds, ps).Some? && !Migrated(LostLink(bytes), {}, Run(LostLink(bytes), ms, ds, ps).value)
  {
    hide LostLink, Planned, Legacy, Bucket, MainCheckout, Run, Migrated;
    var t := LostLink(bytes);
    LostLinkNodes(bytes);
    InventoryIsLegacy();
    LostLinkIsCheckout(bytes);
    var s, d := Src("inventory.ini"), Dst("inventory.ini");
    assert s[1] == "inventory.ini";
    assert Root(t, {}, s, d) && d in t && t[d].Link? && t[d] != t[s];
    forall n | Legacy(n) && Src(n) in t ensures n == "inventory.ini" {
      TwoLevels(n);
    }
    InventoryIsPlanned(t);
    if Planned(t, {}, ms, ds, ps) {
      LosslessIff(t, {}, ms, ds, ps);
      PlanRuns(t, {}, ms, ds, ps);
      forall x | x in ms ensures !Blocked(t, x) && ParentReady(t, x.1) {
        OnlyInventory(t, ms, ds, ps, x);
        InventoryReady(t);
      }
    }
  }

  lemma {:induction false} OnlyInventory(t: Tree, ms: Moves, ds: seq<Path>, ps: seq<Path>, x: (Path, Path))
    requires Planned(t, {}, ms, ds, ps) && x in ms && Planned(t, {}, InventoryPlan(), [], [])
    ensures x == InventoryPlan()[0]
  {
    hide PlannedMove, DupKind, PruneKind, ConflictKind;
    assert PlannedMove(t, {}, x) && x in InventoryPlan();
  }

  lemma {:induction false} InventoryReady(t: Tree)
    requires IsDir(t, []) && IsDir(t, BUILD) && IsDir(t, ["build", "work"])
    ensures ParentReady(t, InventoryPlan()[0].1)
  {
    var d := InventoryPlan()[0].1;
    forall p | Above(p, d) && p in t ensures t[p].Dir? {
      assert p == d[..|p|] && |p| < 3;
      assert d[..0] == [] && d[..1] == BUILD && d[..2] == ["build", "work"];
    }
  }

  /** And one on which it cannot run: a file stands where the work bucket belongs. */
  function FileForBucket(bytes: seq<bv8>): Tree {
    map[[] := Dir, BUILD := Dir, ["build", "work"] := File([]), ["build", "inventory.ini"] := File(bytes)]
  }

  lemma {:induction false} FileForBucketNodes(bytes: seq<bv8>)
    ensures var t := FileForBucket(bytes); Look(t, []) == Look(t, BUILD) == Some(Dir)
    ensures Look(FileForBucket(bytes), ["build", "inventory.ini"]) == Some(File(bytes))
    ensures Look(FileForBucket(bytes), ["build", "work"]) == Some(File([]))
    ensures forall p :: p in FileForBucket(bytes) ==> p in {[], BUILD, ["build", "work"], ["build", "inventory.ini"]}
  {
  }

  /** There is a plan, and none runs to its end. */
  lemma {:induction false} FileObstructs(bytes: seq<bv8>, ms: Moves, ds: seq<Path>, ps: seq<Path>)
    ensures MainCheckout(FileForBucket(bytes)) && Obstructed(FileForBucket(bytes), {})
    ensures Planned(FileForBucket(bytes), {}, InventoryPlan(), [], [])
    ensures Planned(FileForBucket(bytes), {}, ms, ds, ps) ==> Run(FileForBucket(bytes), ms, ds, ps).None?
  {
    hide FileForBucket, Legacy, Bucket, Planned, Run;
    FileForBucketNodes(bytes);
    InventoryIsLegacy();
    var t := FileForBucket(bytes);
    assert Parent(BUILD) == [] && Parent(["build", "work"]) == BUILD && Parent(["build", "inventory.ini"]) == BUILD;
    var s, d := Src("inventory.ini"), Dst("inventory.ini");
    assert s[1] == "inventory.ini";
    assert ["build", "work"] == d[..2] && Above(["build", "work"], d);
    assert Root(t, {}, s, d) && !ParentReady(t, d);
    forall n | Legacy(n) && Src(n) in t ensures n == "inventory.ini" {
      TwoLevels(n);
    }
    InventoryIsPlanned(t);
    if Planned(t, {}, ms, ds, ps) {
      PlanRuns(t, {}, ms, ds, ps);
      var x := ObstructedMove(t, {});
      MoveListed(t, ms, ds, ps, x);
    }
  }

  lemma {:induction false} MoveListed(t: Tree, ms: Moves, ds: seq<Path>, ps: seq<Path>, x: (Path, Path))
    requires Planned(t, {}, ms, ds, ps) && PlannedMove(t, {}, x)
    ensures x in ms
  {
    hide PlannedMove, DupKind, PruneKind, ConflictKind;
  }

  // ----- a second migration -------------------------------------------------------------

  /** Between two migrations a link changed its mind: a legacy link that was skipped as
      dangling resolves by now, or the vagrant directory that was left as stale lost its
      counterpart, a link that resolved then and does not any more. */
  ghost predicate LinksTurned(t: Tree, live: set<Path>, live': set<Path>) {
    || (exists n :: Legacy(n) && Src(n) in t && t[Src(n)].Link? && Src(n) !in live && Src(n) in live')
    || (IsDir(t, VAGRANT_SRC) && VAGRANT_DST in t && t[VAGRANT_DST].Link? && VAGRANT_DST in live && VAGRANT_DST !in live')
  }

  /** The plan of a migration moves, drops and prunes nothing and meets no conflict. */
  ghost predicate PlansNothing(t: Tree, live: set<Path>) {
    && !VagrantMoves(t, live)
    && forall p :: !MoveKind(t, live, p) && !DupKind(t, live, p) && !PruneKind(t, live, p) && !ConflictKind(t, live, p)
  }

  /** After a lossless migration a second one plans nothing, if and only if no link turned in
      the meantime. */
  lemma {:induction false} SecondMigrate(t: Tree, live: set<Path>, t': Tree, live': set<Path>)
    requires Closed(t) && Migrated(t, live, t')
    ensures PlansNothing(t', live') <==> !LinksTurned(t, live, live')
  {
    hide Closed, MoveAt, DupAt, PruneAt, ConflictAt, Legacy, Bucket, Migrated, MoveKind, DupKind, PruneKind, ConflictKind,
         VagrantMoves, IsDir;
    SecondVagrant(t, live, t', live');
    if n :| Legacy(n) && Src(n) in t && t[Src(n)].Link? && Src(n) !in live && Src(n) in live' {
      SkippedLinkStays(t, live, t', n);
      RevivedLinkIsPlanned(t', live', n);
    }
    forall p | MoveKind(t', live', p) || DupKind(t', live', p) || PruneKind(t', live', p) || ConflictKind(t', live', p)
      ensures LinksTurned(t, live, live')
    {
      PlannedIsLeftover(t, live, t', live', p);
    }
  }

  /** With the same links resolving, a second migration plans nothing. */
  lemma {:induction false} SecondMigrateIsIdle(t: Tree, live: set<Path>, t': Tree)
    requires Closed(t) && Migrated(t, live, t')
    ensures PlansNothing(t', live)
  {
    hide Closed, Migrated, PlansNothing, Legacy;
    SecondMigrate(t, live, t', live);
  }

  /** The vagrant directory moves in the second migration exactly when its counterpart was a
      resolving link and does not resolve any more. */
  lemma {:induction false} SecondVagrant(t: Tree, live: set<Path>, t': Tree, live': set<Path>)
    requires Closed(t) && Migrated(t, live, t')
    ensures VagrantMoves(t', live') <==>
            IsDir(t, VAGRANT_SRC) && VAGRANT_DST in t && t[VAGRANT_DST].Link? && VAGRANT_DST in live && VAGRANT_DST !in live'
  {
    hide Closed, Legacy, Bucket, Active, Outside, Arrived, Root;
    VagrantDoesNotArrive(t, live);
    VagrantRoot(t, live);
    if VAGRANT_SRC in t && !VagrantMoves(t, live) {
      VagrantOutside(t, live);
      assert Look(t', VAGRANT_SRC) == Look(t, VAGRANT_SRC);
      if VAGRANT_DST in t {
        assert Look(t', VAGRANT_DST) == Look(t, VAGRANT_DST);
      }
    }
  }

  lemma {:induction false} VagrantRoot(t: Tree, live: set<Path>)
    ensures Root(t, live, VAGRANT_SRC, VAGRANT_DST) <==> VagrantMoves(t, live)
  {
    assert VAGRANT_SRC[0] == "lab";
  }

  /** Nothing moves into lab/. */
  lemma {:induction false} VagrantDoesNotArrive(t: Tree, live: set<Path>)
    ensures !Arrived(t, live, VAGRANT_SRC) && forall s, d :: Root(t, live, s, d) ==> !Above(VAGRANT_SRC, d)
  {
    hide Root;
    assert VAGRANT_SRC[0] == "lab";
    forall s, d | Root(t, live, s, d) ensures !(d <= VAGRANT_SRC) && !Above(VAGRANT_SRC, d) {
      RootShape(t, live, s, d);
      DifferAt(d, VAGRANT_SRC, 0);
    }
  }

  lemma {:induction false} VagrantOutside(t: Tree, live: set<Path>)
    requires !VagrantMoves(t, live)
    ensures Outside(t, live, VAGRANT_SRC) && Outside(t, live, VAGRANT_DST)
  {
    hide Root, Legacy, Bucket;
    forall s, d | Root(t, live, s, d) ensures !(s <= VAGRANT_SRC) && !(s <= VAGRANT_DST) {
      RootIsLegacy(t, live, s, d);
      DifferAt(s, VAGRANT_SRC, 0);
      BucketsAreNotLegacy(s[1]);
      DifferAt(s, VAGRANT_DST, 1);
    }
  }

  lemma {:induction false} RootIsLegacy(t: Tree, live: set<Path>, s: Path, d: Path)
    requires Root(t, live, s, d) && !VagrantMoves(t, live)
    ensures |s| == 2 && s[0] == "build" && Active(t, live, s[1]) && s == Src(s[1])
  {
  }

  /** A link that was skipped as dangling is still where it was. */
  lemma {:induction false} SkippedLinkStays(t: Tree, live: set<Path>, t': Tree, n: string)
    requires Migrated(t, live, t') && Legacy(n) && Src(n) in t && t[Src(n)].Link? && Src(n) !in live
    ensures Look(t', Src(n)) == Look(t, Src(n))
  {
    hide Legacy, Bucket, Root, Outside, Arrived;
    forall s, d | Root(t, live, s, d) ensures !(s <= Src(n)) {
      RootOnlySelf(t, live, s, d, n);
    }
    OutsideIs(t, live, Src(n));
  }

  /** Once it resolves, it is moved or refused. */
  lemma {:induction false} RevivedLinkIsPlanned(t: Tree, live: set<Path>, n: string)
    requires Legacy(n) && Src(n) in t && t[Src(n)].Link? && Src(n) in live
    ensures MoveKind(t, live, Src(n)) || ConflictKind(t, live, Src(n))
  {
    hide MoveAt, ConflictAt, Legacy, Bucket;
    assert InLegacy(Src(n)) && Src(n)[1] == n;
    assert Active(t, live, n) && !Merges(t, live, n);
  }

  /** Whatever a second plan names is such a link. */
  lemma {:induction false} PlannedIsLeftover(t: Tree, live: set<Path>, t': Tree, live': set<Path>, p: Path)
    requires Migrated(t, live, t')
    requires MoveKind(t', live', p) || DupKind(t', live', p) || PruneKind(t', live', p) || ConflictKind(t', live', p)
    ensures exists n :: Legacy(n) && Src(n) in t && t[Src(n)].Link? && Src(n) !in live && Src(n) in live'
  {
    hide MoveAt, DupAt, PruneAt, ConflictAt, Legacy, Bucket, Migrated;
    var n := p[1];
    assert Active(t', live', n);
    LeftoverIsLink(t, live, t', n);
  }

  /** A link that turns: a legacy inventory that is a dangling link is skipped and left, and
      moves in the second migration once it resolves. */
  function SkippedLink(target: string): Tree {
    map[[] := Dir, BUILD := Dir, ["build", "inventory.ini"] := Link(target)]
  }

  lemma {:induction false} RevivedLinkMoves(target: string)
    ensures var t, p := SkippedLink(target), Src("inventory.ini");
            Migrated(t, {}, t) && LinksTurned(t, {}, {p}) && MoveKind(t, {p}, p) && !PlansNothing(t, {p})
  {
    hide SkippedLink, Legacy, Bucket, MoveAt;
    SkippedLinkNodes(target);
    InventoryIsLegacy();
    var t, p := SkippedLink(target), Src("inventory.ini");
    SkippedLinkHasNoRoot(target);
    assert InLegacy(p) && p[1] == "inventory.ini";
    assert Dst("inventory.ini") !in t && TopMove(t, {p}, "inventory.ini");
  }

  lemma {:induction false} SkippedLinkNodes(target: string)
    ensures forall p :: p in SkippedLink(target) <==> p in {[], BUILD, ["build", "inventory.ini"]}
    ensures SkippedLink(target)[["build", "inventory.ini"]] == Link(target)
  {
  }

  lemma {:induction false} SkippedLinkHasNoRoot(target: string)
    ensures forall s, d :: !Root(SkippedLink(target), {}, s, d)
  {
    hide SkippedLink, Legacy, Bucket;
    SkippedLinkNodes(target);
    var t := SkippedLink(target);
    assert VAGRANT_SRC !in t;
    forall n | Legacy(n) ensures !Active(t, {}, n) {
      if Src(n) in t {
        assert Src(n) == ["build", "inventory.ini"];
      }
    }
  }

  lemma {:induction false} LeftoverIsLink(t: Tree, live: set<Path>, t': Tree, n: string)
    requires Migrated(t, live, t') && Legacy(n) && Src(n) in t'
    ensures t'[Src(n)].Link? && Src(n) in t && t[Src(n)].Link? && Src(n) !in live
  {
    hide Legacy, Bucket, Root, Exists, Outside, Arrived;
    var p := Src(n);
    LegacyDoesNotArrive(t, live, n);
    assert p in t;
    LeftoverInactive(t, live, t', n);
    forall s, d | Root(t, live, s, d) ensures !(s <= p) {
      RootOnlySelf(t, live, s, d, n);
    }
    assert Outside(t, live, p) by { OutsideIs(t, live, p); }
    assert Look(t', p) == Look(t, p);
    InactiveIsLink(t, live, n);
  }

  lemma {:induction false} OutsideIs(t: Tree, live: set<Path>, p: Path)
    requires forall s, d :: Root(t, live, s, d) ==> !(s <= p)
    ensures Outside(t, live, p)
  {
  }

  lemma {:induction false} InactiveIsLink(t: Tree, live: set<Path>, n: string)
    requires Legacy(n) && Src(n) in t && !Active(t, live, n)
    ensures t[Src(n)].Link? && Src(n) !in live
  {
  }

  lemma {:induction false} LegacyDoesNotArrive(t: Tree, live: set<Path>, n: string)
    requires Legacy(n)
    ensures !Arrived(t, live, Src(n)) && forall s, d :: Root(t, live, s, d) ==> !Above(Src(n), d)
  {
    hide Legacy, Bucket, Root;
    BucketsAreNotLegacy(n);
    forall s, d | Root(t, live, s, d) ensures !(d <= Src(n)) && !Above(Src(n), d) {
      RootShape(t, live, s, d);
      DifferAt(d, Src(n), 1);
    }
    forall s, d, q | Root(t, live, s, d) && s <= q ensures Src(n) != To(s, d, q) {
    }
  }

  lemma {:induction false} LeftoverInactive(t: Tree, live: set<Path>, t': Tree, n: string)
    requires Migrated(t, live, t') && Legacy(n) && Src(n) in t' && Src(n) in t
    ensures !Active(t, live, n)
  {
    hide Legacy, Bucket, Exists, Outside, Arrived;
    assert Src(n)[1] == n;
    assert Active(t, live, n) ==> Root(t, live, Src(n), Dst(n));
  }

  lemma {:induction false} RootShape(t: Tree, live: set<Path>, s: Path, d: Path)
    requires Root(t, live, s, d)
    ensures |d| == 3 && d[0] == "build" && IsBucket(d[1])
  {
    hide Legacy, Bucket, Exists;
    if s != VAGRANT_SRC {
      BucketsAreNotLegacy(s[1]);
    }
  }

  lemma {:induction false} RootOnlySelf(t: Tree, live: set<Path>, s: Path, d: Path, n: string)
    requires Root(t, live, s, d) && Legacy(n) && !Active(t, live, n)
    ensures !(s <= Src(n))
  {
    hide Legacy, Bucket, Exists;
    if s == VAGRANT_SRC {
      DifferAt(s, Src(n), 0);
    } else {
      assert s[1] != n;
      DifferAt(s, Src(n), 1);
    }
  }

  // ----- the same, on names -------------------------------------------------------------

  lemma {:induction false} RootIff(t: Tree, live: set<Path>, s: Path, d: Path)
    ensures Root(t, live, s, d) <==> Goes(t, live, s, d)
  {
    hide Legacy, Bucket, Belongs, Exists, Present;
    PresentIff(t, live, s);
    PresentIff(t, live, d);
    if |s| == 2 && Active(t, live, s[1]) && s == Src(s[1]) && d == Dst(s[1]) {
      BelongsIff(s[1], Bucket(s[1]));
    }
    if n, b :| Belongs(n, b) && s == ["build", n] && d == ["build", b, n] && Present(t, live, s) {
      BelongsIff(n, b);
      assert s[1] == n;
    }
  }

  lemma {:induction false} MigratedIff(t: Tree, live: set<Path>, t': Tree)
    ensures Migrated(t, live, t') <==> Lossless(t, live, t')
  {
    hide Root, Goes, Above, Look;
    forall s, d ensures Root(t, live, s, d) <==> Goes(t, live, s, d) {
      RootIff(t, live, s, d);
    }
  }

  lemma {:induction false} LosesIff(t: Tree, live: set<Path>)
    ensures Loses(t, live) <==> Clobbers(t, live) || Obstructed(t, live)
  {
    hide Root, Goes, Above;
    forall s, d ensures Root(t, live, s, d) <==> Goes(t, live, s, d) {
      RootIff(t, live, s, d);
    }
  }

  // ----- the command --------------------------------------------------------------------

  /** A raised collision, a dry run, a run to the end, or an operation that failed part-way. */
  datatype Outcome = Collision | DryRun | Applied | Broken

  class Migrator {
    var tree: Tree
    var moves: Moves
    var duplicates: seq<Path>
    var prune: seq<Path>
    var conflicts: seq<Path>
    var stale: seq<Path>

    constructor (t: Tree)
      ensures tree == t && moves == [] && duplicates == [] && prune == [] && conflicts == [] && stale == []
    {
      tree, moves, duplicates, prune, conflicts, stale := t, [], [], [], [], [];
    }

    /** Walks a directory that exists on both sides: records moves, matches and conflicts, and
        the emptied directories in post-order. */
    method PlanMerge(src: Path, dst: Path)
      returns (ghost ms: Moves, ghost ds: seq<Path>, ghost ps: seq<Path>, ghost cs: seq<Path>)
      requires Closed(tree) && IsDir(tree, src) && IsDir(tree, dst)
      modifies this`moves, this`duplicates, this`prune, this`conflicts
      ensures moves == old(moves) + ms && duplicates == old(duplicates) + ds
      ensures prune == old(prune) + ps && conflicts == old(conflicts) + cs
      ensures CoversAll(tree, src, dst, ms, ds, ps, cs)
      decreases Under(tree, src)
    {
      hide Covers, CoversAll, Closed, ChildNames, Under;
      ms, ds, ps, cs := [], [], [], [];
      var rest := ChildNames(tree, src);
      ghost var done: set<string> := {};
      CoversNothing(tree, src, dst);
      while rest != {}
        invariant done !! rest && done + rest == ChildNames(tree, src)
        invariant moves == old(moves) + ms && duplicates == old(duplicates) + ds
        invariant prune == old(prune) + ps && conflicts == old(conflicts) + cs
        invariant Covers(tree, src, dst, done, ms, ds, ps, cs)
        decreases rest
      {
        var c :| c in rest;
        NameIsChild(tree, src, c);
        var child, target := src + [c], dst + [c];
        ghost var ms', ds', ps', cs' := [], [], [], [];
        if target !in tree {
          moves, ms' := moves + [(child, target)], [(child, target)];
          CoversChildLeaf(tree, src, dst, c, ms', ds', cs');
        } else if IsDir(tree, child) && IsDir(tree, target) {
          UnderShrinks(tree, src, c);
          ms', ds', ps', cs' := PlanMerge(child, target);
          CoversChildDir(tree, src, dst, c, ms', ds', ps', cs');
        } else if tree[child] == tree[target] {
          duplicates, ds' := duplicates + [child], [child];
          CoversChildLeaf(tree, src, dst, c, ms', ds', cs');
        } else {
          conflicts, cs' := conflicts + [child], [child];
          CoversChildLeaf(tree, src, dst, c, ms', ds', cs');
        }
        CoversUnion(tree, src, dst, done, {c}, ms, ds, ps, cs, ms', ds', ps', cs');
        ms, ds, ps, cs := ms + ms', ds + ds', ps + ps', cs + cs';
        done, rest := done + {c}, rest - {c};
      }
      assert done == ChildNames(tree, src);
      CoversDone(tree, src, dst, ms, ds, ps, cs);
      prune, ps := prune + [src], ps + [src];
    }

    /** Plans every legacy entry of build/. */
    method PlanEntries(live: set<Path>)
      requires Closed(tree) && moves == [] && duplicates == [] && prune == [] && conflicts == []
      modifies this`moves, this`duplicates, this`prune, this`conflicts
      ensures TopCovers(tree, live, Names(tree), moves, duplicates, prune, conflicts)
    {
      hide TopCovers, Closed, CoversAll, Legacy, Bucket;
      var rest := Names(tree);
      ghost var done: set<string> := {};
      assert TopCovers(tree, live, {}, [], [], [], []) by { TopCoversNothing(tree, live); }
      while rest != {}
        invariant done !! rest && done + rest == Names(tree)
        invariant TopCovers(tree, live, done, moves, duplicates, prune, conflicts)
        decreases rest
      {
        var n :| n in rest;
        NamesAreLegacy(tree, n);
        ghost var ms', ds', ps', cs' := [], [], [], [];
        ghost var ms, ds, ps, cs := moves, duplicates, prune, conflicts;
        if Exists(tree, live, Src(n)) {
          if !Exists(tree, live, Dst(n)) {
            moves, ms' := moves + [(Src(n), Dst(n))], [(Src(n), Dst(n))];
            TopLeaf(tree, live, n, ms', cs');
          } else if n in MERGEABLE && IsDir(tree, Src(n)) && IsDir(tree, Dst(n)) {
            ms', ds', ps', cs' := PlanMerge(Src(n), Dst(n));
            TopMerge(tree, live, n, ms', ds', ps', cs');
          } else {
            conflicts, cs' := conflicts + [Src(n)], [Src(n)];
            TopLeaf(tree, live, n, ms', cs');
          }
        } else {
          TopLeaf(tree, live, n, ms', cs');
        }
        TopUnion(tree, live, done, {n}, ms, ds, ps, cs, ms', ds', ps', cs');
        assert moves == ms + ms' && duplicates == ds + ds' && prune == ps + ps' && conflicts == cs + cs';
        done, rest := done + {n}, rest - {n};
      }
      assert done == Names(tree);
    }

    /** Renames, then unlinks, then removes directories; false when an operation fails. */
    method Apply() returns (ok: bool)
      modifies this`tree
      ensures ok == Run(old(tree), moves, duplicates, prune).Some?
      ensures ok ==> tree == Run(old(tree), moves, duplicates, prune).value
    {
      hide RunMove, Unlink, Rmdir;
      var i := 0;
      assert moves[0..] == moves;
      while i < |moves|
        invariant i <= |moves|
        invariant RunMoves(old(tree), moves) == RunMoves(tree, moves[i..])
      {
        assert moves[i..][0] == moves[i] && moves[i..][1..] == moves[i + 1..];
        var next := RunMove(tree, moves[i]);
        if next == None {
          return false;
        }
        tree := next.value;
        i := i + 1;
      }
      ghost var moved := tree;
      i := 0;
      assert duplicates[0..] == duplicates;
      while i < |duplicates|
        invariant i <= |duplicates|
        invariant RunUnlinks(moved, duplicates) == RunUnlinks(tree, duplicates[i..])
      {
        assert duplicates[i..][0] == duplicates[i] && duplicates[i..][1..] == duplicates[i + 1..];
        var next := Unlink(tree, duplicates[i]);
        if next == None {
          return false;
        }
        tree := next.value;
        i := i + 1;
      }
      ghost var dropped := tree;
      i := 0;
      assert prune[0..] == prune;
      while i < |prune|
        invariant i <= |prune|
        invariant RunRmdirs(dropped, prune) == RunRmdirs(tree, prune[i..])
      {
        assert prune[i..][0] == prune[i] && prune[i..][1..] == prune[i + 1..];
        var next := Rmdir(tree, prune[i]);
        if next == None {
          return false;
        }
        tree := next.value;
        i := i + 1;
      }
      return true;
    }

    /** Moves existing top-level build/ entries into their buckets. Any conflict anywhere
        leaves the tree untouched; otherwise the run is lossless unless it would replace a
        different, dangling link. `live` is the set of links that resolve. */
    method Migrate(live: set<Path>, dryRun: bool) returns (r: Outcome)
      requires MainCheckout(tree)
      requires moves == [] && duplicates == [] && prune == [] && conflicts == [] && stale == []
      modifies this
      ensures r == Collision <==> exists p :: ConflictKind(old(tree), live, p)
      ensures r == Collision || dryRun ==> tree == old(tree)
      ensures r != Collision ==> Planned(old(tree), live, moves, duplicates, prune) && (r == DryRun <==> dryRun)
      ensures r == Applied || r == Broken ==>
                ((r == Applied && Migrated(old(tree), live, tree)) <==> !Clobbers(old(tree), live) && !Obstructed(old(tree), live))
      ensures r == Collision <==> exists n, b :: Clashes(old(tree), live, n, b)
      ensures r == Applied || r == Broken ==> ((r == Applied && Lossless(old(tree), live, tree)) <==> !Loses(old(tree), live))
      ensures r != Collision ==> (stale == [VAGRANT_SRC] <==> IsDir(old(tree), VAGRANT_SRC) && Exists(old(tree), live, VAGRANT_DST))
    {
      hide MainCheckout, TopCovers, Planned, Migrated, Clobbers, Obstructed, Run, ConflictKind, Clashes, Lossless, Loses;
      ClosedCheckout(tree);
      ClashIff(tree, live);
      LosesIff(tree, live);
      PlanEntries(live);
      CoversEverything(tree, live, moves, duplicates, prune, conflicts);
      if conflicts != [] {
        assert conflicts[0] in conflicts;
        return Collision;
      }
      ghost var ms := moves;
      if IsDir(tree, VAGRANT_SRC) {
        if Exists(tree, live, VAGRANT_DST) {
          stale := [VAGRANT_SRC];
        } else {
          moves := moves + [(VAGRANT_SRC, VAGRANT_DST)];
        }
      }
      WithVagrant(tree, live, ms, duplicates, prune);
      LosslessIff(tree, live, moves, duplicates, prune);
      if dryRun {
        return DryRun;
      }
      var ok := Apply();
      MigratedIff(old(tree), live, tree);
      return if ok then Applied else Broken;
    }
  }

  lemma {:induction false} CoversDone(t: Tree, s: Path, d: Path, ms: Moves, ds: seq<Path>, ps: seq<Path>, cs: seq<Path>)
    requires IsDir(t, s) && IsDir(t, d) && Covers(t, s, d, ChildNames(t, s), ms, ds, ps, cs)
    ensures CoversAll(t, s, d, ms, ds, ps + [s], cs)
  {
    hide Covers;
    assert (ps + [s])[..|ps|] == ps;
  }

  lemma {:induction false} TopCoversNothing(t: Tree, live: set<Path>)
    ensures TopCovers(t, live, {}, [], [], [], [])
  {
  }

  lemma {:induction false} NamesAreLegacy(t: Tree, n: string)
    requires n in Names(t)
    ensures Legacy(n)
  {
  }

  lemma {:induction false} WithVagrant(t: Tree, live: set<Path>, ms: Moves, ds: seq<Path>, ps: seq<Path>)
    requires Distinct(ms) && Distinct(ds) && PostOrder(ps)
    requires forall x :: x in ms ==> MoveKind(t, live, x.0) && x.1 == Target(x.0)
    requires forall p :: MoveKind(t, live, p) ==> (p, Target(p)) in ms
    requires forall p :: p in ds <==> DupKind(t, live, p)
    requires forall p :: p in ps <==> PruneKind(t, live, p)
    requires forall p :: !ConflictKind(t, live, p)
    ensures Planned(t, live, if VagrantMoves(t, live) then ms + [(VAGRANT_SRC, VAGRANT_DST)] else ms, ds, ps)
  {
    hide Target, Exists, Legacy, Bucket, Merges, TopMove, MoveAt, DupKind, PruneKind, ConflictKind;
    var v := (VAGRANT_SRC, VAGRANT_DST);
    assert !InLegacy(VAGRANT_SRC);
    forall x ensures x in ms + [v] <==> x in ms || x == v {}
    assert v !in ms;
  }
}
