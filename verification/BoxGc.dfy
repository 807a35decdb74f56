/** `mqlab box gc`: the pool scan, the image pass, and the removal of boxes no catalog
    selection resolves to. */
module BoxGc {
  import opened Wrappers
  import opened Text
  import opened BoxNames
  import opened BoxPool

  function Elems(xs: seq<string>): (r: set<string>)
    ensures forall x :: x in r <==> x in xs
  {
    set x | x in xs
  }

  lemma {:induction false} DistinctAppend<T>(xs: seq<T>, x: T)
    requires Distinct(xs) && x !in xs
    ensures Distinct(xs + [x]) && forall y :: y in xs + [x] <==> y in xs || y == x
  {
  }

  // ----- reading the pool ---------------------------------------------------------------

  /** One read of the pool. A volume that was listed but is gone when it is read vanished. */
  datatype Scan = Scan(names: seq<string>, alloc: map<string, nat>, inUse: set<string>, vanished: seq<string>)

  /** What `vol-list` printed: each volume once, and possibly some that are gone by now. */
  ghost predicate Lists(listing: seq<string>, pool: Pool) {
    Distinct(listing) && forall n :: n in pool ==> n in listing
  }

  ghost predicate ScanOf(scan: Scan, pool: Pool, listing: seq<string>) {
    && Distinct(scan.names) && (forall n :: n in scan.names <==> n in listing && n in pool)
    && Distinct(scan.vanished) && (forall n :: n in scan.vanished <==> n in listing && n !in pool)
    && (forall n :: n in scan.alloc <==> n in scan.names)
    && (forall n :: n in scan.names ==> scan.alloc[n] == pool[n].alloc)
    && (forall b :: b in scan.inUse <==> exists v :: v in scan.names && Backs(pool, v, b))
  }

  method ScanPool(pool: Pool, listing: seq<string>) returns (scan: Scan)
    requires Distinct(listing)
    ensures ScanOf(scan, pool, listing)
  {
    scan := Scan([], map[], {}, []);
    for i := 0 to |listing|
      invariant ScanOf(scan, pool, listing[..i])
    {
      var n := listing[i];
      assert n !in listing[..i];
      assert forall x :: x in listing[..i + 1] <==> x in listing[..i] || x == n;
      ghost var before := scan;
      if n !in pool {
        DistinctAppend(scan.vanished, n);
        scan := scan.(vanished := scan.vanished + [n]);
        continue;
      }
      DistinctAppend(scan.names, n);
      scan := scan.(names := scan.names + [n], alloc := scan.alloc[n := pool[n].alloc]);
      var backing := pool[n].backing;
      if backing.Some? && backing.value != "" {
        scan := scan.(inUse := scan.inUse + {backing.value});
      }
      forall b ensures b in scan.inUse <==> exists v :: v in scan.names && Backs(pool, v, b) {
        assert b in scan.inUse <==> b in before.inUse || Backs(pool, n, b);
      }
    }
    assert listing[..|listing|] == listing;
  }

  // ----- images by stem -----------------------------------------------------------------

  ghost predicate AllOf(names: seq<string>, stem: string) { forall n :: n in names ==> IsImage(n) && StemOf(n) == stem }

  ghost predicate From(xs: seq<string>, names: seq<string>) { forall n :: n in xs ==> n in names }

  /** Box stem to its base images. */
  method BoxImages(names: seq<string>) returns (byStem: map<string, seq<string>>)
    requires Distinct(names)
    ensures forall s :: s in byStem ==> Distinct(byStem[s]) && byStem[s] != [] && AllOf(byStem[s], s)
    ensures forall n :: n in names && IsImage(n) ==> StemOf(n) in byStem && n in byStem[StemOf(n)]
    ensures forall s :: s in byStem ==> From(byStem[s], names)
  {
    hide ParseImage;
    byStem := map[];
    for i := 0 to |names|
      invariant forall s :: s in byStem ==> Distinct(byStem[s]) && byStem[s] != [] && AllOf(byStem[s], s)
      invariant forall n :: n in names[..i] && IsImage(n) ==> StemOf(n) in byStem && n in byStem[StemOf(n)]
      invariant forall s :: s in byStem ==> From(byStem[s], names[..i])
    {
      var n := names[i];
      assert forall x :: x in names[..i + 1] <==> x in names[..i] || x == n;
      if IsImage(n) {
        var was := if StemOf(n) in byStem then byStem[StemOf(n)] else [];
        assert n !in names[..i];
        DistinctAppend(was, n);
        byStem := byStem[StemOf(n) := was + [n]];
      }
    }
    assert names[..|names|] == names;
  }

  function Insert(xs: seq<string>, n: string): seq<string>
    requires IsImage(n) && forall x :: x in xs ==> IsImage(x)
  {
    if xs == [] || Older(n, xs[0]) then [n] + xs else [xs[0]] + Insert(xs[1..], n)
  }

  /** `images.sort()`. */
  function Sort(xs: seq<string>): (r: seq<string>)
    requires forall x :: x in xs ==> IsImage(x)
    ensures forall x :: x in r <==> x in xs
  {
    if xs == [] then []
    else
      var rest := Sort(xs[1..]);
      InsertMembers(rest, xs[0]);
      Insert(rest, xs[0])
  }

  lemma {:induction false} InsertMembers(xs: seq<string>, n: string)
    requires IsImage(n) && forall x :: x in xs ==> IsImage(x)
    ensures forall x :: x in Insert(xs, n) <==> x in xs || x == n
    ensures |Insert(xs, n)| == |xs| + 1
  {
    hide ParseImage, Older;
    if xs != [] && !Older(n, xs[0]) {
      InsertMembers(xs[1..], n);
    }
  }

  ghost predicate Ascending(xs: seq<string>) {
    && (forall x :: x in xs ==> IsImage(x))
    && forall i, j :: 0 <= i < j < |xs| ==> Older(xs[i], xs[j])
  }

  lemma {:induction false} InsertAscending(xs: seq<string>, n: string)
    requires Ascending(xs) && IsImage(n) && n !in xs
    ensures Ascending(Insert(xs, n))
  {
    hide ParseImage, Older;
    if xs != [] {
      OlderTotal(n, xs[0]);
      if Older(n, xs[0]) {
        forall j | 0 < j < |xs| ensures Older(n, xs[j]) {
          OlderTrans(n, xs[0], xs[j]);
        }
      } else {
        var rest := xs[1..];
        InsertAscending(rest, n);
        InsertMembers(rest, n);
        forall x | x in Insert(rest, n) ensures Older(xs[0], x) {
        }
      }
    }
  }

  /** Sorting puts distinct images in strictly ascending order. */
  lemma {:induction false} SortAscending(xs: seq<string>)
    requires Distinct(xs) && forall x :: x in xs ==> IsImage(x)
    ensures Ascending(Sort(xs)) && Distinct(Sort(xs)) && |Sort(xs)| == |xs|
  {
    hide ParseImage, Older;
    if xs != [] {
      SortAscending(xs[1..]);
      InsertAscending(Sort(xs[1..]), xs[0]);
      InsertMembers(Sort(xs[1..]), xs[0]);
    }
    forall i, j | 0 <= i < j < |Sort(xs)| ensures Sort(xs)[i] != Sort(xs)[j] {
      OlderTotal(Sort(xs)[i], Sort(xs)[j]);
    }
  }

  /** The last of a stem's sorted images is its newest. */
  lemma {:induction false} LastIsNewest(pool: Pool, images: seq<string>, stem: string)
    requires Ascending(images) && images != [] && AllOf(images, stem)
    requires forall n :: n in images <==> n in pool && IsImage(n) && StemOf(n) == stem
    ensures forall n :: n in images ==> (Newest(pool, n) <==> n == images[|images| - 1])
  {
    hide ParseImage, Older;
    var last := images[|images| - 1];
    assert last in images;
    assert Newest(pool, last);
    forall n | n in images ensures Newest(pool, n) <==> n == last {
      if Newest(pool, n) {
        NewestUnique(pool, n, last);
      }
    }
  }

  // ----- which images are current -------------------------------------------------------

  /** An image the pass must keep: one its registered box names, or, for a stem with no box
      registered, the one with the last timestamp, by name among equals. A dead stem has none. */
  ghost predicate IsCurrent(pool: Pool, current: Current, dead: set<string>, n: string) {
    && ParseImage(n).Some? && ParseImage(n).value.stem !in dead
    && var stem := ParseImage(n).value.stem;
       if stem in current then n in current[stem] else forall m :: m in pool && m != n && Imported(m, stem) ==> ImportedBefore(m, n)
  }

  predicate Imported(n: string, stem: string) { ParseImage(n).Some? && ParseImage(n).value.stem == stem }

  ghost predicate ImportedBefore(m: string, n: string) {
    && ParseImage(m).Some? && ParseImage(n).Some?
    && (ParseImage(m).value.ts < ParseImage(n).value.ts
        || (ParseImage(m).value.ts == ParseImage(n).value.ts && TextBefore(m, n)))
  }

  /** Some volume of the pool is an overlay on this one. */
  ghost predicate HasOverlay(pool: Pool, n: string) { exists v :: v in pool && pool[v].backing == Some(n) }

  /** What the report must say of every image: kept exactly when current, else skipped exactly
      when an overlay backs onto it, else deleted. */
  ghost predicate Sorted(pool: Pool, current: Current, dead: set<string>, r: GcResult) {
    && (forall n :: n in r.kept <==> n in pool && IsCurrent(pool, current, dead, n))
    && (forall n :: n in r.skipped <==> n in pool && ParseImage(n).Some? && !IsCurrent(pool, current, dead, n) && HasOverlay(pool, n))
    && (forall n :: n in r.deleted <==> n in pool && ParseImage(n).Some? && !IsCurrent(pool, current, dead, n) && !HasOverlay(pool, n))
  }

  lemma {:induction false} OlderIff(m: string, n: string)
    requires IsImage(m) && IsImage(n)
    ensures Older(m, n) <==> ImportedBefore(m, n)
  {
    hide ParseImage, LexLess, TextBefore;
    LexIff(m, n);
  }

  lemma {:induction false} KeepIff(pool: Pool, current: Current, dead: set<string>, n: string)
    requires n in pool && IsImage(n)
    ensures Keep(pool, current, dead, n) <==> IsCurrent(pool, current, dead, n)
  {
    hide ParseImage, Older, ImportedBefore;
    forall m | m in pool && IsImage(m) ensures Older(m, n) <==> ImportedBefore(m, n) {
      OlderIff(m, n);
    }
  }

  lemma {:induction false} ImageInUse(pool: Pool, n: string)
    requires IsImage(n)
    ensures InUse(pool, n) <==> HasOverlay(pool, n)
  {
    assert n != "";
    if v :| v in pool && pool[v].backing == Some(n) {
      assert Backs(pool, v, n);
    }
    if v :| Backs(pool, v, n) {
      assert v in pool && pool[v].backing == Some(n);
    }
  }

  lemma {:induction false} ReportSorts(pool: Pool, current: Current, dead: set<string>, r: GcResult)
    requires Reported(pool, current, dead, Images(pool), r)
    ensures Sorted(pool, current, dead, r)
  {
    hide ParseImage, Keep, InUse, IsCurrent, HasOverlay;
    forall n | n in pool && IsImage(n)
      ensures Keep(pool, current, dead, n) <==> IsCurrent(pool, current, dead, n)
      ensures InUse(pool, n) <==> HasOverlay(pool, n)
    {
      KeepIff(pool, current, dead, n);
      ImageInUse(pool, n);
    }
    assert forall n :: IsCurrent(pool, current, dead, n) ==> ParseImage(n).Some? by { CurrentIsImage(pool, current, dead); }
  }

  lemma {:induction false} CurrentIsImage(pool: Pool, current: Current, dead: set<string>)
    ensures forall n :: IsCurrent(pool, current, dead, n) ==> ParseImage(n).Some?
  {
    hide ParseImage;
  }

  // ----- the image pass -----------------------------------------------------------------

  datatype GcResult = GcResult(
    deleted: seq<string>, freed: nat, kept: seq<string>, skipped: seq<string>, vanished: seq<string>, absent: bool)

  /** The report covers exactly the images in `seen`: each is kept, deleted or skipped. */
  ghost predicate Reported(pool: Pool, current: Current, dead: set<string>, seen: set<string>, r: GcResult) {
    && Distinct(r.kept) && Distinct(r.deleted) && Distinct(r.skipped)
    && (forall n :: n in r.kept <==> n in seen && Keep(pool, current, dead, n))
    && (forall n :: n in r.deleted <==> n in seen && Delete(pool, current, dead, n))
    && (forall n :: n in r.skipped <==> n in seen && Skip(pool, current, dead, n))
    && Total(pool) == Total(pool - Elems(r.deleted)) + r.freed
  }

  function Images(pool: Pool): set<string> { set n | n in pool.Keys && IsImage(n) }

  lemma {:induction false} NothingReported(pool: Pool, current: Current, dead: set<string>)
    ensures Reported(pool, current, dead, {}, GcResult([], 0, [], [], [], false))
  {
    assert pool - Elems([]) == pool;
  }

  lemma {:induction false} OneFate(pool: Pool, current: Current, dead: set<string>, n: string)
    requires n in pool && IsImage(n)
    ensures Skip(pool, current, dead, n) <==> !Keep(pool, current, dead, n) && InUse(pool, n)
    ensures Delete(pool, current, dead, n) <==> !Keep(pool, current, dead, n) && !InUse(pool, n)
  {
    hide ParseImage, InUse;
  }

  lemma {:induction false} ReportOne(
      pool: Pool, current: Current, dead: set<string>, seen: set<string>, r: GcResult, n: string, next: GcResult)
    requires Reported(pool, current, dead, seen, r) && n !in seen && n in pool && IsImage(n)
    requires next == if Keep(pool, current, dead, n) then r.(kept := r.kept + [n])
                     else if InUse(pool, n) then r.(skipped := r.skipped + [n])
                     else r.(deleted := r.deleted + [n], freed := r.freed + pool[n].alloc)
    ensures Reported(pool, current, dead, seen + {n}, next)
  {
    hide ParseImage, Keep, InUse, Skip, Delete, Total, Distinct;
    OneFate(pool, current, dead, n);
    if Keep(pool, current, dead, n) {
      DistinctAppend(r.kept, n);
    } else if InUse(pool, n) {
      DistinctAppend(r.skipped, n);
    } else {
      DistinctAppend(r.deleted, n);
      var left := pool - Elems(r.deleted);
      TotalWithout(left, n);
      assert left - {n} == pool - Elems(next.deleted);
    }
  }

  /** A full report deletes exactly what a collection deletes. */
  lemma {:induction false} ReportIsCollect(pool: Pool, current: Current, dead: set<string>, r: GcResult)
    requires Reported(pool, current, dead, Images(pool), r)
    ensures pool - Elems(r.deleted) == Collect(pool, current, dead)
  {
    hide ParseImage, Keep, InUse;
    forall n ensures n in r.deleted <==> Delete(pool, current, dead, n) {
      assert Delete(pool, current, dead, n) ==> n in Images(pool);
    }
  }

  class Host {
    /** None when the storage pool is not defined yet. */
    var pool: Option<Pool>
    var registered: set<string>
    var current: Current
    var caches: set<string>

    constructor (p: Option<Pool>, r: set<string>, c: Current, f: set<string>)
      ensures pool == p && registered == r && current == c && caches == f
    {
      pool, registered, current, caches := p, r, c, f;
    }

    /** Reclaims orphaned base images from the pool. */
    method GcOrphanedImages(listing: seq<string>, dead: set<string>, dryRun: bool) returns (r: GcResult)
      requires pool.Some? ==> Lists(listing, pool.value)
      modifies this`pool
      ensures r.absent <==> old(pool).None?
      ensures r.absent ==> r == GcResult([], 0, [], [], [], true) && pool == None
      ensures !r.absent ==>
                && Sorted(old(pool).value, current, dead, r)
                && Reported(old(pool).value, current, dead, Images(old(pool).value), r)
                && pool == Some(if dryRun then old(pool).value else Collect(old(pool).value, current, dead))
                && forall n :: n in r.vanished <==> n in listing && n !in old(pool).value
      ensures !r.absent ==> pool == Some(if dryRun then old(pool).value else old(pool).value - set n | n in r.deleted)
    {
      hide Reported, Sorted, ParseImage, Keep, InUse, Delete, Skip;
      r := GcResult([], 0, [], [], [], true);
      if pool.None? {
        return;
      }
      ghost var was := pool.value;
      var scan := ScanPool(pool.value, listing);
      var byStem := BoxImages(scan.names);
      r := GcResult([], 0, [], [], [], false);
      NothingReported(was, current, dead);
      assert was - Elems([]) == was;
      ghost var seen: set<string> := {};
      var stems := byStem.Keys;
      while stems != {}
        invariant stems <= byStem.Keys && !r.absent && r.vanished == []
        invariant forall n :: n in seen <==> n in Images(was) && StemOf(n) !in stems
        invariant Reported(was, current, dead, seen, r)
        invariant pool == Some(if dryRun then was else was - Elems(r.deleted))
        decreases stems
      {
        var stem :| stem in stems;
        ghost var before := seen;
        r, seen := CollectStem(was, scan, stem, byStem[stem], dead, dryRun, r, seen);
        stems := stems - {stem};
      }
      assert seen == Images(was);
      ReportIsCollect(was, current, dead, r);
      r := SetVanished(was, current, dead, Images(was), r, scan.vanished);
      ReportSorts(was, current, dead, r);
    }

    /** The images of one stem to keep. */
    method Kept(ghost was: Pool, images: seq<string>, stem: string, dead: set<string>) returns (keep: set<string>)
      requires Ascending(images) && images != [] && AllOf(images, stem)
      requires forall n :: n in images <==> n in was && IsImage(n) && StemOf(n) == stem
      ensures forall n :: n in images ==> (n in keep <==> Keep(was, current, dead, n))
    {
      hide ParseImage, Older, Newest;
      LastIsNewest(was, images, stem);
      if stem in dead {
        keep := {};
      } else if stem in current {
        keep := set n | n in images && n in current[stem];
      } else {
        keep := {images[|images| - 1]};
      }
    }

    /** Keeps, skips or deletes each image of one stem. */
    method CollectStem(ghost was: Pool, scan: Scan, stem: string, found: seq<string>, dead: set<string>, dryRun: bool,
                       report: GcResult, ghost seen: set<string>)
      returns (r: GcResult, ghost now: set<string>)
      requires ScanOf(scan, was, scan.names + scan.vanished) && (forall n :: n in scan.names <==> n in was)
      requires Distinct(found) && found != [] && AllOf(found, stem)
      requires forall n :: n in found <==> n in was && IsImage(n) && StemOf(n) == stem
      requires forall n :: n in found ==> n !in seen
      requires Reported(was, current, dead, seen, report)
      requires pool == Some(if dryRun then was else was - Elems(report.deleted))
      modifies this`pool
      ensures Reported(was, current, dead, now, r) && now == seen + Elems(found)
      ensures pool == Some(if dryRun then was else was - Elems(r.deleted))
      ensures r.vanished == report.vanished && r.absent == report.absent
    {
      hide Reported, ParseImage, Keep, Newest, InUse, ScanOf, Sort, Ascending;
      r, now := report, seen;
      var images := Sort(found);
      SortAscending(found);
      var keep := Kept(was, images, stem, dead);
      for i := 0 to |images|
        invariant Reported(was, current, dead, now, r) && now == seen + Elems(images[..i])
        invariant pool == Some(if dryRun then was else was - Elems(r.deleted))
        invariant r.vanished == report.vanished && r.absent == report.absent
      {
        var n := images[i];
        assert n in images && n in found && n !in seen;
        assert n !in images[..i];
        ghost var prior := r;
        ScanTells(scan, was, n);
        if n in keep {
          r := r.(kept := r.kept + [n]);
        } else if n in scan.inUse {
          r := r.(skipped := r.skipped + [n]);
        } else {
          if !dryRun {
            pool := Some(pool.value - {n});
            assert was - Elems(r.deleted) - {n} == was - Elems(r.deleted + [n]);
          }
          r := r.(deleted := r.deleted + [n], freed := r.freed + scan.alloc[n]);
        }
        ReportOne(was, current, dead, now, prior, n, r);
        now := now + {n};
        assert images[..i + 1] == images[..i] + [n];
      }
      assert images[..|images|] == images;
    }

    /** Takes the unprotected boxes off the host, registration and caches both, unless a live VM
        backs onto one; files and registrations of any other shape stay. */
    method CleanUnreferenced(
        listing: seq<string>, roles: seq<string>, protected: set<string>, retired: set<string>, dryRun: bool)
      returns (r: Unreferenced)
      requires pool.Some? ==> Lists(listing, pool.value)
      modifies this`registered, this`current, this`caches
      ensures forall n :: n in r.removed <==>
                Candidate(pool, old(registered), old(caches), roles, retired, n) && n !in protected && !StemInUse(pool, n)
      ensures forall n :: n in r.inUse <==>
                Candidate(pool, old(registered), old(caches), roles, retired, n) && n !in protected && StemInUse(pool, n)
      ensures forall n :: n in r.resolvable <==>
                Candidate(pool, old(registered), old(caches), roles, retired, n) && n in protected
      ensures forall n :: n in r.foreign <==> n in old(registered) && n !in retired && !Generated(n, roles)
      ensures forall f :: f in r.foreignFiles <==> f in old(caches) && ForeignFile(f, roles, retired)
      ensures r.found.Keys == r.removed + r.inUse && FoundOn(pool, old(registered), old(caches), retired, r.found)
      ensures registered == if dryRun then old(registered) else old(registered) - r.removed
      ensures current == if dryRun then old(current) else old(current) - r.removed
      ensures caches == if dryRun then old(caches) else CachesWithout(old(caches), retired, r.removed)
    {
      hide ParseImage, Generated, CachedAs, CachesWithout, Candidate, StemInUse, HasImage, CacheFiles, FoundAt, FoundOn,
           ForeignFile, Retired, FatCache;
      var inUse, pooled := PoolStems(pool, listing, roles);
      var registrations := OfShape(registered - retired, roles);
      var names := CacheNames(caches, retired);
      var cached := OfShape(names, roles);
      var files := ForeignFiles(caches, roles, retired);
      var rest := (registrations + cached + pooled) - retired;
      ghost var all := rest;
      forall n ensures n in all <==> Candidate(pool, registered, caches, roles, retired, n) {
        CandidateIs(pool, registered, caches, roles, retired, n);
      }
      var was, foreign := caches, registered - retired - registrations;
      var removed, kept, resolvable: set<string>, found: map<string, Found> := {}, {}, {}, map[];
      CachesWhole(caches, retired);
      NothingFound(registrations, was, pooled, retired);
      assert removed + kept == {};
      while rest != {}
        invariant rest <= all
        invariant forall n :: n in removed <==> n in all - rest && n !in protected && n !in inUse
        invariant forall n :: n in kept <==> n in all - rest && n !in protected && n in inUse
        invariant forall n :: n in resolvable <==> n in all - rest && n in protected
        invariant found == FoundAt(registrations, was, pooled, retired, removed + kept)
        invariant registered == if dryRun then old(registered) else old(registered) - removed
        invariant current == if dryRun then old(current) else old(current) - removed
        invariant caches == if dryRun then was else CachesWithout(was, retired, removed)
        decreases rest
      {
        var n :| n in rest;
        rest := rest - {n};
        if n in protected {
          resolvable := resolvable + {n};
          continue;
        }
        OneFound(registrations, was, pooled, retired, removed + kept, n);
        found := found[n := Found(n in registrations, CacheFiles(was, retired, n), n in pooled)];
        if n in inUse {
          assert removed + (kept + {n}) == removed + kept + {n};
          kept := kept + {n};
          continue;
        }
        if !dryRun {
          CachesStep(was, caches, retired, removed, n);
          OneLess(old(registered), old(current), removed, n);
          caches := set f | f in caches && CachedAs(f, retired) != Some(n);
          registered, current := registered - {n}, current - {n};
        }
        assert (removed + {n}) + kept == removed + kept + {n};
        removed := removed + {n};
      }
      FoundIs(pool, old(registered), registrations, was, pooled, roles, retired, removed + kept);
      r := Unreferenced(removed, kept, resolvable, foreign, files, found);
    }

    /** `box gc --unreferenced`: the removal, then the image pass over the same pool. */
    method CollectUnreferenced(
        listing: seq<string>, again: seq<string>, roles: seq<string>, protected: set<string>,
        retired: set<string>, retiredStems: set<string>)
      returns (u: Unreferenced, r: GcResult)
      requires pool.Some? ==> Lists(listing, pool.value) && Lists(again, pool.value)
      modifies this
      ensures forall n :: n in u.removed <==>
                Candidate(old(pool), old(registered), old(caches), roles, retired, n) && n !in protected && !StemInUse(old(pool), n)
      ensures registered == old(registered) - u.removed && current == old(current) - u.removed
      ensures u.foreign <= registered && u.foreignFiles <= caches
      ensures forall n :: n in u.removed ==> n !in registered && n !in current && !HasImage(pool, n)
      ensures forall n, f :: n in u.removed && f in caches ==> CachedAs(f, retired) != Some(n)
      ensures pool.Some? == old(pool).Some?
      ensures old(pool).Some? ==>
                && pool == Some(Collect(old(pool).value, current, retiredStems + u.removed))
                && Total(old(pool).value) == Total(pool.value) + r.freed
    {
      hide ParseImage, Generated, Keep, CachedAs, CachesWithout, ForeignFile, Candidate;
      u := CleanUnreferenced(listing, roles, protected, retired, false);
      forall n | n in u.removed ensures Generated(n, roles) {
        CandidateIs(pool, old(registered), old(caches), roles, retired, n);
      }
      StillForeign(old(caches), roles, retired, u.removed);
      RemovedFilesGone(old(caches), retired, u.removed);
      r := GcOrphanedImages(again, retiredStems + u.removed, false);
      if old(pool).Some? {
        ReportIsCollect(old(pool).value, current, retiredStems + u.removed, r);
        forall n | n in u.removed ensures !HasImage(pool, n) {
          DeadStemGone(old(pool).value, current, retiredStems + u.removed, n);
        }
      }
    }
  }

  lemma {:induction false} ScanTells(scan: Scan, pool: Pool, n: string)
    requires ScanOf(scan, pool, scan.names + scan.vanished) && (forall v :: v in scan.names <==> v in pool) && n in pool
    ensures n in scan.inUse <==> InUse(pool, n)
    ensures n in scan.alloc && scan.alloc[n] == pool[n].alloc
  {
  }

  function SetVanished(
      ghost pool: Pool, ghost current: Current, ghost dead: set<string>, ghost seen: set<string>, r: GcResult,
      vanished: seq<string>): (s: GcResult)
    requires Reported(pool, current, dead, seen, r)
    ensures Reported(pool, current, dead, seen, s) && s == r.(vanished := vanished)
  {
    r.(vanished := vanished)
  }

  // ----- boxes no selection resolves to -------------------------------------------------

  /** Where on the host a box was found: its registration, cache files, base images. */
  datatype Found = Found(registered: bool, cacheFiles: set<string>, hasVolumes: bool)

  /** `found` covers the removed boxes and those in use. */
  datatype Unreferenced = Unreferenced(
    removed: set<string>, inUse: set<string>, resolvable: set<string>, foreign: set<string>, foreignFiles: set<string>,
    found: map<string, Found>)

  function CacheFiles(caches: set<string>, retired: set<string>, n: string): set<string> {
    set f | f in caches && CachedAs(f, retired) == Some(n)
  }

  /** Each box's places are those where the host held it. */
  ghost predicate FoundOn(
      pool: Option<Pool>, registered: set<string>, caches: set<string>, retired: set<string>, found: map<string, Found>) {
    forall n :: n in found ==> && found[n].registered == (n in registered)
                               && (forall f :: f in found[n].cacheFiles <==> f in caches && CachedAs(f, retired) == Some(n))
                               && found[n].hasVolumes == HasImage(pool, n)
  }

  function FoundAt(
      registered: set<string>, caches: set<string>, pooled: set<string>, retired: set<string>, names: set<string>): map<string, Found> {
    map n | n in names :: Found(n in registered, CacheFiles(caches, retired, n), n in pooled)
  }

  lemma {:induction false} NothingFound(registered: set<string>, caches: set<string>, pooled: set<string>, retired: set<string>)
    ensures FoundAt(registered, caches, pooled, retired, {}) == map[]
  {
  }

  lemma {:induction false} OneFound(
      registered: set<string>, caches: set<string>, pooled: set<string>, retired: set<string>, names: set<string>, n: string)
    ensures FoundAt(registered, caches, pooled, retired, names + {n})
            == FoundAt(registered, caches, pooled, retired, names)[n := Found(n in registered, CacheFiles(caches, retired, n), n in pooled)]
  {
    hide CacheFiles;
  }

  lemma {:induction false} FoundIs(
      pool: Option<Pool>, registered: set<string>, registrations: set<string>, caches: set<string>, pooled: set<string>,
      roles: seq<string>, retired: set<string>, names: set<string>)
    requires forall n :: n in registrations <==> n in registered - retired && Generated(n, roles)
    requires forall n :: n in pooled <==> HasImage(pool, n) && Generated(n, roles)
    requires forall n :: n in names ==> Candidate(pool, registered, caches, roles, retired, n)
    ensures var found := FoundAt(registrations, caches, pooled, retired, names);
            found.Keys == names && FoundOn(pool, registered, caches, retired, found)
  {
    hide HasImage, Generated, CachedAs;
  }

  ghost predicate HasImage(pool: Option<Pool>, stem: string) {
    pool.Some? && exists n :: n in pool.value && IsImage(n) && StemOf(n) == stem
  }

  /** A live overlay backs onto an image of this stem. */
  ghost predicate StemInUse(pool: Option<Pool>, stem: string) {
    pool.Some? && exists n :: InUse(pool.value, n) && IsImage(n) && StemOf(n) == stem
  }

  /** A generated name found registered, cached or in the pool, and not a retired one. */
  ghost predicate Candidate(
      pool: Option<Pool>, registered: set<string>, caches: set<string>, roles: seq<string>, retired: set<string>,
      n: string) {
    && Generated(n, roles) && n !in retired
    && (n in registered || (exists f :: f in caches && CachedAs(f, retired) == Some(n)) || HasImage(pool, n))
  }

  /** A cache file the retired pass does not own and no generated box name explains. */
  ghost predicate ForeignFile(file: string, roles: seq<string>, retired: set<string>) {
    !Retired(file, retired) && !(FatCache(file).Some? && Generated(FatCache(file).value, roles))
  }

  ghost function CachesWithout(caches: set<string>, retired: set<string>, removed: set<string>): set<string> {
    set f | f in caches && !(CachedAs(f, retired).Some? && CachedAs(f, retired).value in removed)
  }

  lemma {:induction false} CachesStep(
      was: set<string>, caches: set<string>, retired: set<string>, removed: set<string>, n: string)
    requires caches == CachesWithout(was, retired, removed)
    ensures (set f | f in caches && CachedAs(f, retired) != Some(n)) == CachesWithout(was, retired, removed + {n})
  {
    hide CachedAs;
  }

  /** Removing generated boxes touches no foreign file. */
  lemma {:induction false} StillForeign(caches: set<string>, roles: seq<string>, retired: set<string>, removed: set<string>)
    requires forall n :: n in removed ==> Generated(n, roles)
    ensures forall f :: f in caches && ForeignFile(f, roles, retired) ==> f in CachesWithout(caches, retired, removed)
  {
    hide Generated, Retired, FatCache;
  }

  lemma {:induction false} RemovedFilesGone(caches: set<string>, retired: set<string>, removed: set<string>)
    ensures forall n, f :: n in removed && f in CachesWithout(caches, retired, removed) ==> CachedAs(f, retired) != Some(n)
  {
    hide CachedAs;
  }

  lemma {:induction false} OneLess(registered: set<string>, current: Current, removed: set<string>, n: string)
    ensures registered - removed - {n} == registered - (removed + {n}) && current - removed - {n} == current - (removed + {n})
  {
  }

  lemma {:induction false} CachesWhole(caches: set<string>, retired: set<string>)
    ensures CachesWithout(caches, retired, {}) == caches
  {
    hide CachedAs;
  }

  const ARCHES: seq<string> := ["aarch64", "x86_64"]
  const KINDS: seq<string> := [".box", ".manifest-hash", ".components.json"]

  /** The box name in a cache file `<box>-<arch>.<kind>`. */
  function FatCache(file: string): Option<string> {
    if CutArch(file, ".box").Some? then CutArch(file, ".box")
    else if CutArch(file, ".manifest-hash").Some? then CutArch(file, ".manifest-hash")
    else CutArch(file, ".components.json")
  }

  function CutArch(file: string, kind: string): Option<string> {
    var cut := CutSuffix(file, CacheSuffix("aarch64", kind));
    if cut.Some? then cut else CutSuffix(file, CacheSuffix("x86_64", kind))
  }

  function CacheSuffix(arch: string, kind: string): string { "-" + arch + kind }

  function CutSuffix(file: string, suffix: string): Option<string> {
    if EndsWith(file, suffix) && |file| > |suffix| then Some(file[..|file| - |suffix|]) else None
  }

  /** `Path.stem`: the name without its last extension. */
  function PathStem(file: string): string {
    var dot := LastDot(file);
    if 0 < dot < |file| - 1 then file[..dot] else file
  }

  function LastDot(s: string): (n: int)
    ensures -1 <= n < |s|
  {
    if s == "" then -1 else if s[|s| - 1] == '.' then |s| - 1 else LastDot(s[..|s| - 1])
  }

  /** The retired pass owns the file, in either cache scheme. */
  predicate Retired(file: string, retired: set<string>) {
    (FatCache(file).Some? && FatCache(file).value in retired) || PathStem(file) in retired
  }

  /** The box a cache file belongs to, unless the retired pass owns the file. */
  function CachedAs(file: string, retired: set<string>): Option<string> {
    if Retired(file, retired) then None else FatCache(file)
  }

  lemma {:induction false} DeadStemGone(pool: Pool, current: Current, dead: set<string>, stem: string)
    requires stem in dead && !StemInUse(Some(pool), stem)
    ensures !HasImage(Some(Collect(pool, current, dead)), stem)
  {
    hide ParseImage, InUse;
    forall n | n in pool && IsImage(n) && StemOf(n) == stem ensures Delete(pool, current, dead, n) {
    }
  }

  method PoolStems(
      pool: Option<Pool>, listing: seq<string>, roles: seq<string>) returns (inUse: set<string>, pooled: set<string>)
    requires pool.Some? ==> Lists(listing, pool.value)
    ensures forall s :: s in inUse <==> StemInUse(pool, s)
    ensures forall s :: s in pooled <==> HasImage(pool, s) && Generated(s, roles)
  {
    hide ParseImage, Generated;
    if pool.None? {
      return {}, {};
    }
    var scan := ScanPool(pool.value, listing);
    inUse := set b | b in scan.inUse && IsImage(b) :: StemOf(b);
    forall s ensures s in inUse <==> StemInUse(pool, s) {
      UsedStems(scan, pool.value, listing, inUse, s);
    }
    var byStem := BoxImages(scan.names);
    forall s ensures s in byStem <==> HasImage(pool, s) {
      if s in byStem {
        assert byStem[s][0] in byStem[s];
      }
    }
    pooled := OfShape(byStem.Keys, roles);
  }

  lemma {:induction false} UsedStems(scan: Scan, pool: Pool, listing: seq<string>, inUse: set<string>, s: string)
    requires ScanOf(scan, pool, listing) && Lists(listing, pool)
    requires inUse == set b | b in scan.inUse && IsImage(b) :: StemOf(b)
    ensures s in inUse <==> StemInUse(Some(pool), s)
  {
    hide ParseImage;
    forall b ensures b in scan.inUse <==> InUse(pool, b) {
    }
  }

  /** The names of the generated fat-box shape. */
  method OfShape(names: set<string>, roles: seq<string>) returns (r: set<string>)
    ensures forall n :: n in r <==> n in names && Generated(n, roles)
  {
    hide Generated;
    r := {};
    var rest := names;
    while rest != {}
      invariant rest <= names
      invariant forall n :: n in r <==> n in names && n !in rest && Generated(n, roles)
      decreases rest
    {
      var n :| n in rest;
      rest := rest - {n};
      var generated := GeneratedBoxName(n, roles);
      if generated {
        r := r + {n};
      }
    }
  }

  lemma {:induction false} CandidateIs(
      pool: Option<Pool>, registered: set<string>, caches: set<string>, roles: seq<string>, retired: set<string>,
      n: string)
    ensures Candidate(pool, registered, caches, roles, retired, n) <==>
            && Generated(n, roles) && n !in retired
            && (n in registered || (exists f :: f in caches && CachedAs(f, retired) == Some(n)) || HasImage(pool, n))
  {
    hide ParseImage, Generated, CachedAs, HasImage;
  }

  /** The cache files that stay because no generated box name explains them. */
  method ForeignFiles(caches: set<string>, roles: seq<string>, retired: set<string>) returns (r: set<string>)
    ensures forall f :: f in r <==> f in caches && ForeignFile(f, roles, retired)
  {
    hide Generated, FatCache, Retired;
    r := {};
    var rest := caches;
    while rest != {}
      invariant rest <= caches
      invariant forall f :: f in r <==> f in caches - rest && ForeignFile(f, roles, retired)
      decreases rest
    {
      var f :| f in rest;
      rest := rest - {f};
      var name := FatCache(f);
      var generated := false;
      if name.Some? {
        generated := GeneratedBoxName(name.value, roles);
      }
      if !Retired(f, retired) && !generated {
        r := r + {f};
      }
    }
  }

  method CacheNames(caches: set<string>, retired: set<string>) returns (r: set<string>)
    ensures forall n :: n in r <==> exists f :: f in caches && CachedAs(f, retired) == Some(n)
  {
    hide CachedAs;
    r := set f | f in caches && CachedAs(f, retired).Some? :: CachedAs(f, retired).value;
  }

  /** A cache file reads back as the box it was written for. */
  lemma {:induction false} CacheNameReadsBack(name: string, arch: string, kind: string)
    requires name != "" && arch in ARCHES && kind in KINDS
    ensures FatCache(name + CacheSuffix(arch, kind)) == Some(name)
  {
    hide CutSuffix, CacheSuffix;
    var file := name + CacheSuffix(arch, kind);
    forall a, k | a in ARCHES && k in KINDS
      ensures CutSuffix(file, CacheSuffix(a, k)) == if a == arch && k == kind then Some(name) else None
    {
      CutTells(name, arch, kind, a, k);
    }
    assert forall k :: k in KINDS ==> CutArch(file, k) == if k == kind then Some(name) else None;
  }

  lemma {:induction false} CutTells(name: string, arch: string, kind: string, arch': string, kind': string)
    requires name != "" && arch in ARCHES && kind in KINDS && arch' in ARCHES && kind' in KINDS
    ensures CutSuffix(name + CacheSuffix(arch, kind), CacheSuffix(arch', kind'))
            == if arch' == arch && kind' == kind then Some(name) else None
  {
    var file, t := name + CacheSuffix(arch, kind), CacheSuffix(arch', kind');
    if arch' != arch || kind' != kind {
      OtherSuffix(name, arch, kind, arch', kind');
    } else {
      assert file[|file| - |t|..] == t && file[..|file| - |t|] == name;
    }
  }

  /** No two cache suffixes end alike. */
  lemma {:induction false} OtherSuffix(name: string, arch: string, kind: string, arch': string, kind': string)
    requires arch in ARCHES && kind in KINDS && arch' in ARCHES && kind' in KINDS
    requires arch != arch' || kind != kind'
    ensures !EndsWith(name + CacheSuffix(arch, kind), CacheSuffix(arch', kind'))
  {
    var file, t := name + CacheSuffix(arch, kind), CacheSuffix(arch', kind');
    var back := if kind != kind' then 1 else |kind| + 3;
    assert file[|file| - back] != t[|t| - back];
    assert back <= |t| <= |file| ==> file[|file| - |t|..][|t| - back] == file[|file| - back];
  }

  /** A cache file is a box's exactly when it has one of these six names. */
  lemma {:induction false} FatCacheIff(file: string, name: string)
    ensures FatCache(file) == Some(name) <==>
            && name != ""
            && (file == name + "-aarch64.box" || file == name + "-x86_64.box"
                || file == name + "-aarch64.manifest-hash" || file == name + "-x86_64.manifest-hash"
                || file == name + "-aarch64.components.json" || file == name + "-x86_64.components.json")
  {
    hide FatCache, CutArch, CutSuffix;
    hide CacheSuffix;
    BoxSuffixes();
    HashSuffixes();
    ComponentSuffixes();
    ArchesAndKinds();
    if FatCache(file) == Some(name) {
      var arch, kind := CacheParts(file);
    }
    forall a, k | a in ARCHES && k in KINDS && name != "" ensures FatCache(name + CacheSuffix(a, k)) == Some(name) {
      CacheNameReadsBack(name, a, k);
    }
  }

  lemma {:induction false} BoxSuffixes()
    ensures CacheSuffix("aarch64", ".box") == "-aarch64.box" && CacheSuffix("x86_64", ".box") == "-x86_64.box"
  {
  }

  lemma {:induction false} HashSuffixes()
    ensures CacheSuffix("aarch64", ".manifest-hash") == "-aarch64.manifest-hash"
    ensures CacheSuffix("x86_64", ".manifest-hash") == "-x86_64.manifest-hash"
  {
  }

  lemma {:induction false} ComponentSuffixes()
    ensures CacheSuffix("aarch64", ".components.json") == "-aarch64.components.json"
    ensures CacheSuffix("x86_64", ".components.json") == "-x86_64.components.json"
  {
  }

  lemma {:induction false} ArchesAndKinds()
    ensures "aarch64" in ARCHES && "x86_64" in ARCHES
    ensures ".box" in KINDS && ".manifest-hash" in KINDS && ".components.json" in KINDS
  {
    assert ARCHES[0] == "aarch64" && ARCHES[1] == "x86_64";
    assert KINDS[0] == ".box" && KINDS[1] == ".manifest-hash" && KINDS[2] == ".components.json";
  }

  lemma {:induction false} CacheParts(file: string) returns (arch: string, kind: string)
    requires FatCache(file).Some?
    ensures (arch == "aarch64" || arch == "x86_64") && (kind == ".box" || kind == ".manifest-hash" || kind == ".components.json")
    ensures FatCache(file).value != "" && file == FatCache(file).value + CacheSuffix(arch, kind)
  {
    hide CutSuffix, CacheSuffix;
    kind := if CutArch(file, ".box").Some? then ".box"
            else if CutArch(file, ".manifest-hash").Some? then ".manifest-hash" else ".components.json";
    arch := if CutSuffix(file, CacheSuffix("aarch64", kind)).Some? then "aarch64" else "x86_64";
    CutOff(file, CacheSuffix(arch, kind));
  }

  lemma {:induction false} CutOff(file: string, suffix: string)
    requires CutSuffix(file, suffix).Some?
    ensures CutSuffix(file, suffix).value != "" && file == CutSuffix(file, suffix).value + suffix
  {
  }

  /** A name's stem is what stands before its extension. */
  lemma {:induction false} PathStemIs(stem: string, ext: string)
    requires '.' !in ext
    ensures stem != "" && ext != "" ==> PathStem(stem + "." + ext) == stem
    ensures PathStem(ext) == ext
  {
    LastDotAt(stem + ".", ext);
    LastDotAt("", ext);
    assert "" + ext == ext;
    assert (stem + "." + ext)[..|stem|] == stem;
  }

  lemma {:induction false} LastDotAt(head: string, ext: string)
    requires '.' !in ext && (head != "" ==> head[|head| - 1] == '.')
    ensures LastDot(head + ext) == |head| - 1
  {
    if ext == "" {
      assert head + ext == head;
    } else {
      assert (head + ext)[..|head + ext| - 1] == head + ext[..|ext| - 1];
      assert (head + ext)[|head + ext| - 1] == ext[|ext| - 1];
      assert ext[|ext| - 1] in ext;
      LastDotAt(head, ext[..|ext| - 1]);
    }
  }

  /** The file of an unretired box is its cache file, in either scheme. */
  lemma {:induction false} CachedAsIff(file: string, retired: set<string>, name: string)
    ensures CachedAs(file, retired) == Some(name) <==>
            FatCache(file) == Some(name) && name !in retired && PathStem(file) !in retired
  {
    hide FatCache, PathStem;
  }
}
