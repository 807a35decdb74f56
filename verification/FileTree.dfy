/** A file tree as a map from paths to nodes, and the operations a migration applies to it. */
module FileTree {
  import opened Wrappers

  type Path = seq<string>

  /** A symbolic link is a leaf: only its own target text is recorded. */
  datatype Node = Dir | File(content: seq<bv8>) | Link(target: string)

  type Tree = map<Path, Node>

  function Parent(p: Path): Path
    requires p != []
  {
    p[..|p| - 1]
  }

  predicate IsDir(t: Tree, p: Path) { p in t && t[p].Dir? }

  /** Every node sits in a directory. */
  ghost predicate Closed(t: Tree) {
    forall p :: p in t && p != [] ==> IsDir(t, Parent(p))
  }

  /** What is at a path. */
  function Look(t: Tree, p: Path): Option<Node> { if p in t then Some(t[p]) else None }

  /** One path lies at or below the other. */
  predicate Nested(a: Path, b: Path) { a <= b || b <= a }

  /** The first path is a directory's on the way to the second. */
  predicate Above(a: Path, p: Path) { a <= p && a != p }

  lemma {:induction false} AboveParent(d: Path, p: Path)
    requires d != []
    ensures Above(p, d) <==> p == Parent(d) || Above(p, Parent(d))
  {
    if Above(p, d) {
      assert p == d[..|p|] == Parent(d)[..|p|];
    }
  }

  lemma {:induction false} PrefixesNest(a: Path, b: Path, p: Path)
    requires a <= p && b <= p
    ensures Nested(a, b)
  {
    if |a| <= |b| {
      assert a == p[..|a|] == b[..|a|];
    } else {
      assert b == p[..|b|] == a[..|b|];
    }
  }

  lemma {:induction false} PrefixTrans(a: Path, b: Path, c: Path)
    requires a <= b && b <= c
    ensures a <= c
  {
    assert a == b[..|a|] == c[..|a|];
  }

  /** In a closed tree every path above a node is a directory. */
  lemma {:induction false} AboveIsDir(t: Tree, a: Path, p: Path)
    requires Closed(t) && p in t && a <= p && a != p
    ensures IsDir(t, a)
    decreases |p|
  {
    var q := Parent(p);
    assert a == p[..|a|] == q[..|a|];
    if a != q {
      AboveIsDir(t, a, q);
    }
  }

  // ----- operations ---------------------------------------------------------------------

  /** `rename(2)`: the source subtree appears at the destination. A non-directory replaces a
      non-directory and a directory replaces an empty one; anything else is an error. */
  function Rename(t: Tree, s: Path, d: Path): Option<Tree> {
    if s !in t || d == [] || !IsDir(t, Parent(d)) || s <= d then None
    else if d in t && t[s].Dir? != t[d].Dir? then None
    else if IsDir(t, d) && (exists p :: p in t && d <= p && p != d) then None
    else Some(Moved(t, s, d))
  }

  /** The paths a subtree arrives at. */
  function Arrivals(t: Tree, s: Path, d: Path): (keys: set<Path>)
    ensures forall p :: p in keys <==> d <= p && s + p[|d|..] in t
  {
    var keys := set p | p in t.Keys && s <= p :: d + p[|s|..];
    forall p ensures p in keys <==> d <= p && s + p[|d|..] in t {
      if p in keys {
        var x :| x in t.Keys && s <= x && p == d + x[|s|..];
        assert x == s + x[|s|..] && p[|d|..] == x[|s|..];
      }
      if d <= p && s + p[|d|..] in t {
        var x := s + p[|d|..];
        assert x[|s|..] == p[|d|..] && d + x[|s|..] == p;
      }
    }
    keys
  }

  function Moved(t: Tree, s: Path, d: Path): (r: Tree)
    ensures forall p :: Look(r, p)
                     == if d <= p then Look(t, s + p[|d|..]) else if s <= p then None else Look(t, p)
  {
    (map p | p in t.Keys && !(s <= p) && !(d <= p) :: t[p]) + (map p | p in Arrivals(t, s, d) :: t[s + p[|d|..]])
  }

  /** `unlink(2)`: removes a file or a link. */
  function Unlink(t: Tree, p: Path): Option<Tree> {
    if p !in t || t[p].Dir? then None else Some(t - {p})
  }

  /** `rmdir(2)`: removes an empty directory. */
  function Rmdir(t: Tree, p: Path): Option<Tree> {
    if !IsDir(t, p) || (exists q :: q in t && p <= q && q != p) then None else Some(t - {p})
  }

  /** It removes exactly a directory with nothing below it. */
  lemma {:induction false} RmdirIff(t: Tree, p: Path, u: Tree)
    ensures Rmdir(t, p) == Some(u) <==>
            && p in t && t[p].Dir? && (forall q :: q in t && q != p ==> !(p <= q))
            && u.Keys == t.Keys - {p} && forall q :: q in u ==> u[q] == t[q]
  {
    assert u == t - {p} <==> u.Keys == t.Keys - {p} && forall q :: q in u ==> u[q] == t[q];
  }

  /** `mkdir(parents=True, exist_ok=True)`. */
  function Mkdirs(t: Tree, p: Path): Option<Tree>
    decreases |p|
  {
    if p in t then (if t[p].Dir? then Some(t) else None)
    else if p == [] then None
    else
      match Mkdirs(t, Parent(p))
      case None => None
      case Some(u) => Some(u[p := Dir])
  }
}
