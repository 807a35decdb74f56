/** What `mqlab build migrate` answers, said on the names and the tree alone. */
module MigrationAnswer {
  import opened Wrappers
  import opened FileTree
  import opened MigrationRun
  import opened MigrationPlan
  import opened Migration

  /** The bucket of an entry that once lived directly in build/. */
  ghost predicate Belongs(n: string, b: string) {
    || (b == "cache" && n in {"mq", "refs", "ansible_collections"})
    || (b == "state" && (n in {"snapshots", "boxes", "rhel96-box", "secrets", "fence_key", "fence_key.pub", "runs", "reports", "dr-runs"}
                         || IsImageFile(n)))
    || (b == "work" && n in {"inventory.ini", "lab", "versions.json", "grafana", "prometheus", "obs", "salt"})
  }

  /** An install image: any name before `-dvd.iso`. */
  ghost predicate IsImageFile(n: string) { exists stem: string :: n == stem + "-dvd.iso" }

  predicate Present(t: Tree, live: set<Path>, p: Path) { p in t && (t[p].Link? ==> p in live) }

  /** The subtree at `s` goes to `d`: an entry of build/ to its bucket, or the old vagrant
      directory when nothing is in its place. */
  ghost predicate Goes(t: Tree, live: set<Path>, s: Path, d: Path) {
    || (exists n, b :: Belongs(n, b) && s == ["build", n] && d == ["build", b, n] && Present(t, live, s))
    || (s == ["lab", ".vagrant"] && d == ["build", "state", "vagrant"] && s in t && t[s].Dir? && !Present(t, live, d))
  }

  /** Both an entry and its bucket copy exist, and are not two directories of references that
      agree wherever they meet. */
  ghost predicate Clashes(t: Tree, live: set<Path>, n: string, b: string) {
    && Belongs(n, b) && Present(t, live, ["build", n]) && Present(t, live, ["build", b, n])
    && (n != "refs" || !t[["build", n]].Dir? || !t[["build", b, n]].Dir? || exists q :: Differs(t, ["build", n], ["build", b, n], q))
  }

  predicate Differs(t: Tree, s: Path, d: Path, q: Path) { s + q in t && d + q in t && t[s + q] != t[d + q] }

  /** A rename would replace a dangling link, or a file stands above a destination. */
  ghost predicate Loses(t: Tree, live: set<Path>) {
    exists s, d :: Goes(t, live, s, d)
                   && ((d in t && t[d].Link? && d !in live && t[d] != t[s]) || exists p :: Above(p, d) && p in t && !t[p].Dir?)
  }

  /** Every subtree that goes stands at its new place, everything else is as it was, and
      nothing else appears but the directories on the way. */
  ghost predicate Lossless(t: Tree, live: set<Path>, t': Tree) {
    && (forall s, d, p :: Goes(t, live, s, d) && s <= p && p in t ==> p !in t' && Look(t', d + p[|s|..]) == Look(t, p))
    && (forall p :: p in t && (forall s, d :: Goes(t, live, s, d) ==> !(s <= p)) ==> Look(t', p) == Look(t, p))
    && (forall p :: p in t' ==>
          || p in t || (exists s, d, q :: Goes(t, live, s, d) && s <= q && q in t && p == d + q[|s|..])
          || (t'[p].Dir? && exists s, d :: Goes(t, live, s, d) && Above(p, d)))
  }

  // ----- the tables say the same --------------------------------------------------------

  lemma {:induction false} ImageFileIff(n: string)
    ensures IsDvd(n) <==> IsImageFile(n)
  {
    if IsDvd(n) {
      assert n == n[..|n| - |DVD_SUFFIX|] + "-dvd.iso";
    }
    if stem: string :| n == stem + "-dvd.iso" {
      assert n[|n| - |DVD_SUFFIX|..] == DVD_SUFFIX;
    }
  }

  lemma {:induction false} TableIff(n: string)
    ensures n in MIGRATION && MIGRATION[n] == "cache" <==> n in {"mq", "refs", "ansible_collections"}
    ensures n in MIGRATION && MIGRATION[n] == "work" <==> n in {"inventory.ini", "lab", "versions.json", "grafana", "prometheus", "obs", "salt"}
    ensures n in MIGRATION && MIGRATION[n] == "state" <==>
            n in {"snapshots", "boxes", "rhel96-box", "secrets", "fence_key", "fence_key.pub", "runs", "reports", "dr-runs"}
    ensures n in MIGRATION ==> MIGRATION[n] == "cache" || MIGRATION[n] == "state" || MIGRATION[n] == "work"
  {
  }

  lemma {:induction false} BelongsIff(n: string, b: string)
    ensures Belongs(n, b) <==> Legacy(n) && Bucket(n) == b
  {
    hide IsDvd, IsImageFile;
    TableIff(n);
    ImageFileIff(n);
    TableHasNoImage(n);
  }

  lemma {:induction false} TableHasNoImage(n: string)
    ensures n in MIGRATION ==> !IsDvd(n)
  {
    if n in MIGRATION && IsDvd(n) {
      assert n[|n| - 1] == n[|n| - |DVD_SUFFIX|..][|DVD_SUFFIX| - 1] == 'o';
      TableEnds(n);
      assert false;
    }
  }

  lemma {:induction false} TableEnds(n: string)
    requires n in MIGRATION
    ensures n != "" && n[|n| - 1] != 'o'
  {
  }

  lemma {:induction false} PresentIff(t: Tree, live: set<Path>, p: Path)
    ensures Present(t, live, p) <==> Exists(t, live, p)
  {
  }

  /** The code's conflicts are these clashes. */
  lemma {:induction false} ClashIff(t: Tree, live: set<Path>)
    ensures (exists p :: ConflictKind(t, live, p)) <==> exists n, b :: Clashes(t, live, n, b)
  {
    hide Legacy, Bucket, Belongs, Exists, Present;
    if p :| ConflictKind(t, live, p) {
      ConflictClashes(t, live, p);
    }
    if n, b :| Clashes(t, live, n, b) {
      var p := ClashConflicts(t, live, n, b);
    }
  }

  lemma {:induction false} ConflictClashes(t: Tree, live: set<Path>, p: Path)
    requires ConflictKind(t, live, p)
    ensures Clashes(t, live, p[1], Bucket(p[1]))
  {
    hide Legacy, Bucket, Belongs;
    var n := p[1];
    var b := Bucket(n);
    BelongsIff(n, b);
    PresentIff(t, live, ["build", n]);
    PresentIff(t, live, ["build", b, n]);
    assert MERGEABLE == {"refs"};
    if Merges(t, live, n) {
      var s, d := Src(n), Dst(n);
      assert s <= p;
      var q := p[|s|..];
      assert p == s + q && To(s, d, p) == d + q;
      assert Differs(t, ["build", n], ["build", b, n], q);
    } else {
      assert TopConflict(t, live, n);
      assert n != "refs" || !t[["build", n]].Dir? || !t[["build", b, n]].Dir?;
    }
    assert Present(t, live, ["build", n]);
    assert Present(t, live, ["build", b, n]);
  }

  lemma {:induction false} ClashConflicts(t: Tree, live: set<Path>, n: string, b: string) returns (p: Path)
    requires Clashes(t, live, n, b)
    ensures ConflictKind(t, live, p)
  {
    hide Legacy, Bucket, Belongs;
    BelongsIff(n, b);
    PresentIff(t, live, ["build", n]);
    PresentIff(t, live, ["build", b, n]);
    var s, d := Src(n), Dst(n);
    assert s[1] == n && InLegacy(s);
    if Merges(t, live, n) {
      var q :| Differs(t, s, d, q);
      p := s + q;
      assert p[|s|..] == q && To(s, d, p) == d + q && p[1] == n && s <= p;
      assert ConflictAt(t, s, d, p) && InLegacy(p) && Merges(t, live, p[1]);
    } else {
      p := s;
      assert TopConflict(t, live, n) && p == Src(p[1]);
    }
  }
}
