/** How two directory trees are merged without losing anything: what is moved, dropped as a
    duplicate, pruned or refused is fixed by the two trees alone. */
module MigrationPlan {
  import opened Wrappers
  import opened FileTree
  import opened MigrationRun

  /** Where a path under `s` lands under `d`. */
  function To(s: Path, d: Path, p: Path): Path
    requires s <= p
  {
    d + p[|s|..]
  }

  /** The bucket lacks this path but has its directory: the whole subtree moves. */
  ghost predicate MoveAt(t: Tree, s: Path, d: Path, p: Path) {
    s <= p && p != s && p in t && To(s, d, p) !in t && IsDir(t, Parent(To(s, d, p)))
  }

  ghost predicate Both(t: Tree, s: Path, d: Path, p: Path) { s <= p && p in t && To(s, d, p) in t }

  /** Both sides are real directories: the legacy one is pruned once it is empty. */
  ghost predicate PruneAt(t: Tree, s: Path, d: Path, p: Path) {
    Both(t, s, d, p) && t[p].Dir? && t[To(s, d, p)].Dir?
  }

  /** Both sides hold the same bytes, or are links to the same target. */
  ghost predicate DupAt(t: Tree, s: Path, d: Path, p: Path) {
    Both(t, s, d, p) && !PruneAt(t, s, d, p) && t[p] == t[To(s, d, p)]
  }

  ghost predicate ConflictAt(t: Tree, s: Path, d: Path, p: Path) {
    Both(t, s, d, p) && t[p] != t[To(s, d, p)]
  }

  /** Each directory comes after everything below it. */
  ghost predicate PostOrder(ps: seq<Path>) { forall i, j :: 0 <= i < j < |ps| ==> !(ps[i] <= ps[j]) }

  /** Paths below `s` by way of one of the children in `names`. */
  ghost predicate Below(s: Path, names: set<string>, p: Path) { s <= p && |p| > |s| && p[|s|] in names }

  /** The lists cover exactly the paths below `s` by way of `names`. */
  ghost predicate Covers(
      t: Tree, s: Path, d: Path, names: set<string>, ms: Moves, ds: seq<Path>, ps: seq<Path>, cs: seq<Path>) {
    && Distinct(ms) && Distinct(ds) && PostOrder(ps)
    && (forall x :: x in ms ==> Below(s, names, x.0) && MoveAt(t, s, d, x.0) && x.1 == To(s, d, x.0))
    && (forall p :: Below(s, names, p) && MoveAt(t, s, d, p) ==> (p, To(s, d, p)) in ms)
    && (forall p :: p in ds <==> Below(s, names, p) && DupAt(t, s, d, p))
    && (forall p :: p in ps <==> Below(s, names, p) && PruneAt(t, s, d, p))
    && (forall p :: p in cs <==> Below(s, names, p) && ConflictAt(t, s, d, p))
  }

  /** The lists cover everything at and below `s`. */
  ghost predicate CoversAll(t: Tree, s: Path, d: Path, ms: Moves, ds: seq<Path>, ps: seq<Path>, cs: seq<Path>) {
    && IsDir(t, s) && IsDir(t, d) && ps != [] && ps[|ps| - 1] == s
    && Covers(t, s, d, ChildNames(t, s), ms, ds, ps[..|ps| - 1], cs)
  }

  function ChildNames(t: Tree, s: Path): set<string> {
    set p | p in t.Keys && s <= p && |p| == |s| + 1 :: p[|s|]
  }

  lemma {:induction false} ChildIn(t: Tree, s: Path, p: Path)
    requires Closed(t) && p in t && s <= p && |p| > |s|
    ensures p[|s|] in ChildNames(t, s) && s + [p[|s|]] in t && s + [p[|s|]] <= p
  {
    var c := s + [p[|s|]];
    assert c == p[..|s| + 1];
    if c != p {
      AboveIsDir(t, c, p);
    }
    assert c in t && s <= c && c[|s|] == p[|s|];
  }

  lemma {:induction false} NameIsChild(t: Tree, s: Path, c: string)
    requires c in ChildNames(t, s)
    ensures s + [c] in t
  {
    var p :| p in t.Keys && s <= p && |p| == |s| + 1 && p[|s|] == c;
    assert p == s + [c];
  }

  lemma {:induction false} Longer(s: Path, p: Path)
    requires s <= p && p != s
    ensures |p| > |s|
  {
  }

  /** Below one child, the paths are those at and below that child. */
  lemma {:induction false} BelowOne(s: Path, c: string, p: Path)
    ensures Below(s, {c}, p) <==> s + [c] <= p
  {
    if s + [c] <= p {
      assert p[..|s| + 1] == s + [c];
      assert p[|s|] == (s + [c])[|s|];
      assert s == p[..|s|];
    }
    if Below(s, {c}, p) {
      assert p[..|s| + 1] == s + [c];
    }
  }

  lemma {:induction false} ToChild(s: Path, d: Path, c: string, p: Path)
    requires s + [c] <= p
    ensures s <= p && To(s + [c], d + [c], p) == To(s, d, p)
  {
    assert p == s + [c] + p[|s| + 1..];
    assert p[|s|..] == [c] + p[|s| + 1..];
    assert d + p[|s|..] == d + [c] + p[|s| + 1..];
  }

  lemma {:induction false} SameBelowChild(t: Tree, s: Path, d: Path, c: string, p: Path)
    requires s + [c] <= p
    ensures s <= p && p != s
    ensures p != s + [c] ==> MoveAt(t, s + [c], d + [c], p) == MoveAt(t, s, d, p)
    ensures PruneAt(t, s + [c], d + [c], p) == PruneAt(t, s, d, p)
    ensures DupAt(t, s + [c], d + [c], p) == DupAt(t, s, d, p)
    ensures ConflictAt(t, s + [c], d + [c], p) == ConflictAt(t, s, d, p)
  {
    ToChild(s, d, c, p);
  }

  lemma {:induction false} CoversChildDir(
      t: Tree, s: Path, d: Path, c: string, ms: Moves, ds: seq<Path>, ps: seq<Path>, cs: seq<Path>)
    requires Closed(t) && CoversAll(t, s + [c], d + [c], ms, ds, ps, cs)
    ensures Covers(t, s, d, {c}, ms, ds, ps, cs)
  {
    hide MoveAt, DupAt, ConflictAt, Closed;
    var s', d', init := s + [c], d + [c], ps[..|ps| - 1];
    var names := ChildNames(t, s');
    forall p ensures Below(s', names, p) ==> Below(s, {c}, p) && p != s' && s' <= p {
      BelowOne(s, c, p);
    }
    forall p | Below(s, {c}, p) && p in t && p != s' ensures Below(s', names, p) && s' <= p {
      BelowOne(s, c, p);
      Longer(s', p);
      ChildIn(t, s', p);
    }
    forall p | Below(s, {c}, p)
      ensures s' <= p && (p != s' ==> MoveAt(t, s', d', p) == MoveAt(t, s, d, p)) && PruneAt(t, s', d', p) == PruneAt(t, s, d, p)
      ensures DupAt(t, s', d', p) == DupAt(t, s, d, p) && ConflictAt(t, s', d', p) == ConflictAt(t, s, d, p)
      ensures To(s', d', p) == To(s, d, p)
    {
      BelowOne(s, c, p);
      SameBelowChild(t, s, d, c, p);
      ToChild(s, d, c, p);
    }
    BelowOne(s, c, s');
    BothDirs(t, s, d, c);
    assert ps == init + [s'];
    MoreMoves(t, s, d, c, ms, names);
    LastPrune(t, s, d, c, init, names);
    forall p ensures p in ds <==> Below(s, {c}, p) && DupAt(t, s, d, p) {
      OneKind(t, s, d, p);
      OneKind(t, s', d', p);
    }
    forall p ensures p in cs <==> Below(s, {c}, p) && ConflictAt(t, s, d, p) {
      OneKind(t, s, d, p);
      OneKind(t, s', d', p);
    }
  }

  lemma {:induction false} OneKind(t: Tree, s: Path, d: Path, p: Path)
    ensures DupAt(t, s, d, p) || ConflictAt(t, s, d, p) || MoveAt(t, s, d, p) ==> p in t && !PruneAt(t, s, d, p)
  {
  }

  /** A child that is a directory on both sides is pruned itself, and nothing else. */
  lemma {:induction false} BothDirs(t: Tree, s: Path, d: Path, c: string)
    requires IsDir(t, s + [c]) && IsDir(t, d + [c])
    ensures s <= s + [c] && To(s, d, s + [c]) == d + [c]
    ensures PruneAt(t, s, d, s + [c]) && !MoveAt(t, s, d, s + [c]) && PruneAt(t, s + [c], d + [c], s + [c])
  {
    assert (s + [c])[|s|..] == [c] && (s + [c])[|s + [c]|..] == [];
    assert d + [c] + [] == d + [c];
  }

  lemma {:induction false} MoreMoves(t: Tree, s: Path, d: Path, c: string, ms: Moves, names: set<string>)
    requires Closed(t) && IsDir(t, s + [c]) && IsDir(t, d + [c]) && names == ChildNames(t, s + [c])
    requires forall x :: x in ms ==>
               Below(s + [c], names, x.0) && MoveAt(t, s + [c], d + [c], x.0) && x.1 == To(s + [c], d + [c], x.0)
    requires forall p :: Below(s + [c], names, p) && MoveAt(t, s + [c], d + [c], p) ==> (p, To(s + [c], d + [c], p)) in ms
    ensures forall x :: x in ms ==> Below(s, {c}, x.0) && MoveAt(t, s, d, x.0) && x.1 == To(s, d, x.0)
    ensures forall p :: Below(s, {c}, p) && MoveAt(t, s, d, p) ==> (p, To(s, d, p)) in ms
  {
    var s', d' := s + [c], d + [c];
    forall x | x in ms ensures Below(s, {c}, x.0) && MoveAt(t, s, d, x.0) && x.1 == To(s, d, x.0) {
      BelowOne(s, c, x.0);
      ToChild(s, d, c, x.0);
      SameBelowChild(t, s, d, c, x.0);
    }
    forall p | Below(s, {c}, p) && MoveAt(t, s, d, p) ensures (p, To(s, d, p)) in ms {
      BelowOne(s, c, p);
      ToChild(s, d, c, p);
      SameBelowChild(t, s, d, c, p);
      BothDirs(t, s, d, c);
      assert p != s';
      Longer(s', p);
      ChildIn(t, s', p);
    }
  }

  lemma {:induction false} LastPrune(t: Tree, s: Path, d: Path, c: string, init: seq<Path>, names: set<string>)
    requires Closed(t) && IsDir(t, s + [c]) && IsDir(t, d + [c]) && names == ChildNames(t, s + [c])
    requires PostOrder(init) && forall p :: p in init <==> Below(s + [c], names, p) && PruneAt(t, s + [c], d + [c], p)
    ensures PostOrder(init + [s + [c]])
    ensures forall p :: p in init + [s + [c]] <==> Below(s, {c}, p) && PruneAt(t, s, d, p)
  {
    var s', d' := s + [c], d + [c];
    var ps := init + [s'];
    BothDirs(t, s, d, c);
    BelowOne(s, c, s');
    forall i, j | 0 <= i < j < |ps| ensures !(ps[i] <= ps[j]) {
      if j == |init| {
        assert ps[i] in init;
      }
    }
    forall p ensures p in ps <==> Below(s, {c}, p) && PruneAt(t, s, d, p) {
      BelowOne(s, c, p);
      if s' <= p {
        SameBelowChild(t, s, d, c, p);
        if p != s' && p in t {
          Longer(s', p);
          ChildIn(t, s', p);
        }
      }
      assert p in ps <==> p in init || p == s';
    }
  }

  /** A child that does not go into a merge: it moves, is a duplicate, or conflicts. */
  lemma {:induction false} CoversChildLeaf(
      t: Tree, s: Path, d: Path, c: string, ms: Moves, ds: seq<Path>, cs: seq<Path>)
    requires Closed(t) && IsDir(t, d) && s + [c] in t && !(IsDir(t, s + [c]) && IsDir(t, d + [c]))
    requires ms == if d + [c] !in t then [(s + [c], d + [c])] else []
    requires ds == if d + [c] in t && t[s + [c]] == t[d + [c]] then [s + [c]] else []
    requires cs == if d + [c] in t && t[s + [c]] != t[d + [c]] then [s + [c]] else []
    ensures Covers(t, s, d, {c}, ms, ds, [], cs)
  {
    hide MoveAt, DupAt, PruneAt, ConflictAt, Below, Closed;
    var s', d' := s + [c], d + [c];
    BelowOne(s, c, s');
    LeafKinds(t, s, d, c);
    forall p | Below(s, {c}, p) && p != s'
      ensures !MoveAt(t, s, d, p) && !DupAt(t, s, d, p) && !PruneAt(t, s, d, p) && !ConflictAt(t, s, d, p)
    {
      BelowOne(s, c, p);
      NothingBelowLeaf(t, s, d, c, p);
    }
    forall x ensures x in ms <==> d' !in t && x == (s', d') {}
    forall x ensures x in ds <==> d' in t && t[s'] == t[d'] && x == s' {}
    forall x ensures x in cs <==> d' in t && t[s'] != t[d'] && x == s' {}
  }

  lemma {:induction false} LeafKinds(t: Tree, s: Path, d: Path, c: string)
    requires IsDir(t, d) && s + [c] in t && !(IsDir(t, s + [c]) && IsDir(t, d + [c]))
    ensures s <= s + [c] && To(s, d, s + [c]) == d + [c]
    ensures MoveAt(t, s, d, s + [c]) <==> d + [c] !in t
    ensures DupAt(t, s, d, s + [c]) <==> d + [c] in t && t[s + [c]] == t[d + [c]]
    ensures ConflictAt(t, s, d, s + [c]) <==> d + [c] in t && t[s + [c]] != t[d + [c]]
    ensures !PruneAt(t, s, d, s + [c])
  {
    var s', d' := s + [c], d + [c];
    assert s'[|s|..] == [c] && To(s, d, s') == d' && Parent(d') == d;
  }

  lemma {:induction false} NothingBelowLeaf(t: Tree, s: Path, d: Path, c: string, p: Path)
    requires Closed(t) && s + [c] in t && !(IsDir(t, s + [c]) && IsDir(t, d + [c])) && s + [c] <= p && p != s + [c]
    ensures !MoveAt(t, s, d, p) && !DupAt(t, s, d, p) && !PruneAt(t, s, d, p) && !ConflictAt(t, s, d, p)
  {
    if p in t {
      AboveIsDir(t, s + [c], p);
      NotBelowLeaf(t, s, d, c, p);
    }
  }

  lemma {:induction false} NotBelowLeaf(t: Tree, s: Path, d: Path, c: string, p: Path)
    requires Closed(t) && s + [c] <= p && p != s + [c] && !IsDir(t, d + [c])
    ensures s <= p && To(s, d, p) !in t && !IsDir(t, Parent(To(s, d, p)))
  {
    ToChild(s, d, c, p);
    var d', q := d + [c], To(s, d, p);
    assert q == d' + p[|s| + 1..];
    Longer(s + [c], p);
    assert d' <= q && d' != q && d' <= Parent(q);
    if q in t {
      AboveIsDir(t, d', q);
    }
    if IsDir(t, Parent(q)) && Parent(q) != d' {
      AboveIsDir(t, d', Parent(q));
    }
  }

  lemma {:induction false} CoversUnion(
      t: Tree, s: Path, d: Path, m: set<string>, n: set<string>,
      ms: Moves, ds: seq<Path>, ps: seq<Path>, cs: seq<Path>, ms': Moves, ds': seq<Path>, ps': seq<Path>,
      cs': seq<Path>)
    requires m !! n && Covers(t, s, d, m, ms, ds, ps, cs) && Covers(t, s, d, n, ms', ds', ps', cs')
    ensures Covers(t, s, d, m + n, ms + ms', ds + ds', ps + ps', cs + cs')
  {
    hide MoveAt, DupAt, ConflictAt, PruneAt, To;
    forall p ensures Below(s, m + n, p) <==> Below(s, m, p) || Below(s, n, p) {}
    forall i, j | 0 <= i < |ps| && 0 <= j < |ps'| ensures !(ps[i] <= ps'[j]) {
      assert ps[i] in ps && ps'[j] in ps';
    }
    DistinctUnion(ms, ms', s, m, n);
    forall i, j | 0 <= i < |ds| && 0 <= j < |ds'| ensures ds[i] != ds'[j] {
      assert ds[i] in ds && ds'[j] in ds';
    }
    forall x ensures x in ms + ms' <==> x in ms || x in ms' {}
    forall x ensures x in ds + ds' <==> x in ds || x in ds' {}
    forall x ensures x in ps + ps' <==> x in ps || x in ps' {}
    forall x ensures x in cs + cs' <==> x in cs || x in cs' {}
  }

  lemma {:induction false} DistinctUnion(ms: Moves, ms': Moves, s: Path, m: set<string>, n: set<string>)
    requires m !! n && Distinct(ms) && Distinct(ms')
    requires (forall x :: x in ms ==> Below(s, m, x.0)) && (forall x :: x in ms' ==> Below(s, n, x.0))
    ensures Distinct(ms + ms')
  {
    forall i, j | 0 <= i < |ms| && 0 <= j < |ms'| ensures ms[i] != ms'[j] {
      assert ms[i] in ms && ms'[j] in ms';
    }
  }

  lemma {:induction false} CoversNothing(t: Tree, s: Path, d: Path)
    ensures Covers(t, s, d, {}, [], [], [], [])
  {
  }

  /** The paths at and below a directory: the measure that shrinks in a merge. */
  function Under(t: Tree, s: Path): set<Path> { set p | p in t.Keys && s <= p }

  lemma {:induction false} UnderShrinks(t: Tree, s: Path, c: string)
    requires s in t
    ensures Under(t, s + [c]) < Under(t, s)
  {
    forall p | p in Under(t, s + [c]) ensures p in Under(t, s) {
      PrefixTrans(s, s + [c], p);
    }
    assert s in Under(t, s) && s !in Under(t, s + [c]);
  }

  /** When nothing conflicts, each path of the source is pruned, is a duplicate, or lies in
      exactly one moved subtree. */
  lemma {:induction false} FateOf(t: Tree, s: Path, d: Path, p: Path)
    requires Closed(t) && IsDir(t, s) && IsDir(t, d) && s <= p && p in t
    requires forall q :: s <= q && q <= p ==> !ConflictAt(t, s, d, q)
    ensures PruneAt(t, s, d, p) || DupAt(t, s, d, p) || exists q :: MoveAt(t, s, d, q) && q <= p
    decreases |p|
  {
    if p == s {
      assert p[|s|..] == [] && d + [] == d;
      assert To(s, d, p) == d;
    } else {
      var q := Parent(p);
      SelfPrefix(p);
      assert s <= q;
      forall x | s <= x && x <= q ensures !ConflictAt(t, s, d, x) {
        PrefixTrans(x, q, p);
      }
      FateOf(t, s, d, q);
      assert To(s, d, q) == Parent(To(s, d, p)) by {
        assert q[|s|..] == p[|s|..][..|p| - |s| - 1];
      }
      assert IsDir(t, q);
      assert !ConflictAt(t, s, d, p);
      if PruneAt(t, s, d, q) {
        if To(s, d, p) !in t {
          assert MoveAt(t, s, d, p);
        }
      } else {
        var x :| MoveAt(t, s, d, x) && x <= q;
        PrefixTrans(x, q, p);
      }
    }
  }

  /** Two moves of one merge never lie within each other. */
  lemma {:induction false} MovesApart(t: Tree, s: Path, d: Path, p: Path, q: Path)
    requires Closed(t) && MoveAt(t, s, d, p) && MoveAt(t, s, d, q) && p != q
    ensures !Nested(p, q) && !Nested(To(s, d, p), To(s, d, q))
  {
    StrictlyInside(t, s, d, p, q);
    StrictlyInside(t, s, d, q, p);
    var x, y := To(s, d, p), To(s, d, q);
    if x <= y {
      ToOrder(s, d, p, q);
    } else if y <= x {
      ToOrder(s, d, q, p);
    }
  }

  lemma {:induction false} ToOrder(s: Path, d: Path, p: Path, q: Path)
    requires s <= p && s <= q
    ensures To(s, d, p) <= To(s, d, q) <==> p <= q
  {
    var x, y := To(s, d, p), To(s, d, q);
    assert p == s + p[|s|..] && q == s + q[|s|..];
    assert x[|d|..] == p[|s|..] && y[|d|..] == q[|s|..];
  }

  lemma {:induction false} StrictlyInside(t: Tree, s: Path, d: Path, p: Path, q: Path)
    requires Closed(t) && MoveAt(t, s, d, p) && MoveAt(t, s, d, q) && p != q
    ensures !(p <= q)
  {
    if p <= q {
      var x, y := To(s, d, p), Parent(To(s, d, q));
      assert p[|s|..] <= q[|s|..];
      assert x <= To(s, d, q) && |x| < |To(s, d, q)|;
      assert x <= y;
      if x != y {
        AboveIsDir(t, x, y);
      }
    }
  }
}
