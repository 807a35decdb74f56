/** Which base images a collection keeps, skips and deletes, and what that does to the
    backing graph of the storage pool over any sequence of collections. */
module BoxPool {
  import opened Wrappers
  import opened BoxNames

  datatype Volume = Volume(alloc: nat, backing: Option<string>)

  type Pool = map<string, Volume>

  /** Registered box stem to the volume names its box file resolves to. */
  type Current = map<string, set<string>>

  predicate IsImage(n: string) { ParseImage(n).Some? }

  function StemOf(n: string): string
    requires IsImage(n)
  {
    ParseImage(n).value.stem
  }

  function TsOf(n: string): nat
    requires IsImage(n)
  {
    ParseImage(n).value.ts
  }

  /** `v` is an overlay on `b`. An empty backing name counts as none. */
  predicate Backs(pool: Pool, v: string, b: string) { v in pool && pool[v].backing == Some(b) && b != "" }

  ghost predicate InUse(pool: Pool, n: string) { exists v :: Backs(pool, v, n) }

  // ----- the newest image of a stem -----------------------------------------------------

  /** Python's order on strings. */
  predicate LexLess(a: string, b: string) {
    b != "" && (a == "" || a[0] < b[0] || (a[0] == b[0] && LexLess(a[1..], b[1..])))
  }

  lemma {:induction false} LexTotal(a: string, b: string)
    ensures a == b || LexLess(a, b) || LexLess(b, a)
    ensures !(LexLess(a, b) && LexLess(b, a)) && (a == b ==> !LexLess(a, b))
  {
    if a != "" && b != "" {
      assert a == [a[0]] + a[1..] && b == [b[0]] + b[1..];
      LexTotal(a[1..], b[1..]);
    }
  }

  lemma {:induction false} LexTrans(a: string, b: string, c: string)
    requires LexLess(a, b) && LexLess(b, c)
    ensures LexLess(a, c)
  {
    if a != "" && a[0] == b[0] && b[0] == c[0] {
      LexTrans(a[1..], b[1..], c[1..]);
    }
  }

  /** The order of two texts without recursion: the first ends where they part, or has the
      smaller character there. */
  ghost predicate TextBefore(a: string, b: string) {
    exists k :: 0 <= k <= |a| && k < |b| && PartsAt(a, b, k)
  }

  predicate PartsAt(a: string, b: string, k: nat)
    requires k <= |a| && k < |b|
  {
    a[..k] == b[..k] && (k == |a| || a[k] < b[k])
  }

  lemma {:induction false} LexIff(a: string, b: string)
    ensures LexLess(a, b) <==> TextBefore(a, b)
  {
    if LexLess(a, b) {
      if a == "" || a[0] < b[0] {
        assert PartsAt(a, b, 0);
      } else {
        LexIff(a[1..], b[1..]);
        var k :| 0 <= k <= |a[1..]| && k < |b[1..]| && PartsAt(a[1..], b[1..], k);
        assert a[..k + 1] == [a[0]] + a[1..][..k] && b[..k + 1] == [b[0]] + b[1..][..k];
        assert PartsAt(a, b, k + 1);
      }
    }
    if k :| 0 <= k <= |a| && k < |b| && PartsAt(a, b, k) && k > 0 {
      assert a[0] == a[..k][0] == b[..k][0] == b[0];
      assert a[1..][..k - 1] == a[..k][1..] == b[..k][1..] == b[1..][..k - 1];
      assert PartsAt(a[1..], b[1..], k - 1);
      LexIff(a[1..], b[1..]);
    }
  }

  /** The order images sort in: by timestamp, then by name. */
  predicate Older(m: string, n: string)
    requires IsImage(m) && IsImage(n)
  {
    TsOf(m) < TsOf(n) || (TsOf(m) == TsOf(n) && LexLess(m, n))
  }

  lemma {:induction false} OlderTotal(m: string, n: string)
    requires IsImage(m) && IsImage(n)
    ensures m == n || Older(m, n) || Older(n, m)
    ensures !(Older(m, n) && Older(n, m)) && (m == n ==> !Older(m, n))
  {
    LexTotal(m, n);
  }

  lemma {:induction false} OlderTrans(m: string, n: string, o: string)
    requires IsImage(m) && IsImage(n) && IsImage(o) && Older(m, n) && Older(n, o)
    ensures Older(m, o)
  {
    if TsOf(m) == TsOf(o) {
      LexTrans(m, n, o);
    }
  }

  predicate SameStem(m: string, n: string) { IsImage(m) && IsImage(n) && StemOf(m) == StemOf(n) }

  ghost predicate Newest(pool: Pool, n: string) {
    n in pool && IsImage(n) && forall m :: m in pool && SameStem(m, n) && m != n ==> Older(m, n)
  }

  lemma {:induction false} NewestUnique(pool: Pool, m: string, n: string)
    requires Newest(pool, m) && Newest(pool, n) && SameStem(m, n)
    ensures m == n
  {
    OlderTotal(m, n);
  }

  /** Every stem with an image has a newest one. */
  lemma {:induction false} NewestExists(pool: Pool, n: string)
    requires n in pool && IsImage(n)
    ensures exists m :: Newest(pool, m) && SameStem(m, n)
    decreases |pool|
  {
    if m :| m in pool && SameStem(m, n) && Older(n, m) {
      var rest := pool - {n};
      OlderTotal(n, m);
      NewestExists(rest, m);
      var top :| Newest(rest, top) && SameStem(top, m);
      if top != m {
        OlderTrans(n, m, top);
      }
      assert Newest(pool, top);
    } else {
      forall m | m in pool && SameStem(m, n) && m != n ensures Older(m, n) {
        OlderTotal(m, n);
      }
      assert Newest(pool, n);
    }
  }

  // ----- one collection -----------------------------------------------------------------

  /** A current image: none for a dead stem, exactly the registered volumes of a registered
      one, and the newest otherwise. */
  ghost predicate Keep(pool: Pool, current: Current, dead: set<string>, n: string) {
    && n in pool && IsImage(n) && StemOf(n) !in dead
    && if StemOf(n) in current then n in current[StemOf(n)] else Newest(pool, n)
  }

  ghost predicate Stale(pool: Pool, current: Current, dead: set<string>, n: string) {
    n in pool && IsImage(n) && !Keep(pool, current, dead, n)
  }

  ghost predicate Skip(pool: Pool, current: Current, dead: set<string>, n: string) {
    Stale(pool, current, dead, n) && InUse(pool, n)
  }

  ghost predicate Delete(pool: Pool, current: Current, dead: set<string>, n: string) {
    Stale(pool, current, dead, n) && !InUse(pool, n)
  }

  ghost function Collect(pool: Pool, current: Current, dead: set<string>): Pool {
    map n | n in pool && !Delete(pool, current, dead, n) :: pool[n]
  }

  /** Total allocation of a pool. */
  ghost function Total(pool: Pool): nat
    decreases |pool|
  {
    if pool == map[] then 0
    else
      var n :| n in pool;
      pool[n].alloc + Total(pool - {n})
  }

  lemma {:induction false} TotalWithout(pool: Pool, n: string)
    requires n in pool
    ensures Total(pool) == pool[n].alloc + Total(pool - {n})
    decreases |pool|
  {
    var m :| m in pool && Total(pool) == pool[m].alloc + Total(pool - {m});
    if m != n {
      TotalWithout(pool - {m}, n);
      TotalWithout(pool - {n}, m);
      assert pool - {m} - {n} == pool - {n} - {m};
    }
  }

  /** A collection leaves no dangling backing: whatever a remaining volume backs onto, and
      was there, is still there. */
  lemma {:induction false} CollectKeepsBacking(pool: Pool, current: Current, dead: set<string>, v: string, b: string)
    requires Backs(Collect(pool, current, dead), v, b) && b in pool
    ensures b in Collect(pool, current, dead)
  {
    assert Backs(pool, v, b);
  }

  /** What a collection keeps does not change by collecting. */
  lemma {:induction false} KeepStable(pool: Pool, current: Current, dead: set<string>, n: string)
    requires n in Collect(pool, current, dead)
    ensures Keep(Collect(pool, current, dead), current, dead, n) <==> Keep(pool, current, dead, n)
  {
    hide ParseImage, Older, InUse;
    var left := Collect(pool, current, dead);
    if IsImage(n) && StemOf(n) !in dead && StemOf(n) !in current {
      NewestExists(pool, n);
      var m :| Newest(pool, m) && SameStem(m, n);
      assert Keep(pool, current, dead, m);
      assert m in left && Newest(left, m);
      if Newest(left, n) {
        NewestUnique(left, m, n);
      }
    }
  }

  /** The second pass deletes exactly the skipped images nothing backs onto any more. */
  lemma {:induction false} SecondPass(pool: Pool, current: Current, dead: set<string>, n: string)
    ensures var left := Collect(pool, current, dead);
            Delete(left, current, dead, n) <==> Skip(pool, current, dead, n) && !InUse(left, n)
  {
    hide ParseImage, Older, Keep, InUse;
    var left := Collect(pool, current, dead);
    if n in left {
      KeepStable(pool, current, dead, n);
    }
  }

  /** Exactly when repeating a collection deletes nothing: each image it skipped still backs
      a volume that stayed. */
  lemma {:induction false} RepeatIsIdle(pool: Pool, current: Current, dead: set<string>)
    ensures var left := Collect(pool, current, dead);
            Collect(left, current, dead) == left
            <==> forall n :: Skip(pool, current, dead, n) ==> exists v :: v in left && Backs(pool, v, n)
  {
    hide ParseImage, Stale;
    var left := Collect(pool, current, dead);
    forall n ensures Delete(left, current, dead, n) <==> Skip(pool, current, dead, n) && !InUse(left, n) {
      SecondPass(pool, current, dead, n);
    }
    forall v, n ensures Backs(left, v, n) <==> v in left && Backs(pool, v, n) {}
    if Collect(left, current, dead) == left {
      forall n | Skip(pool, current, dead, n) ensures exists v :: v in left && Backs(pool, v, n) {
        SkippedIsUsed(pool, current, dead, n);
        assert n in left;
        assert n in Collect(left, current, dead);
        assert InUse(left, n);
      }
    } else {
      IdleOrDeletes(left, current, dead);
      var n :| Delete(left, current, dead, n);
      assert !InUse(left, n);
    }
  }

  lemma {:induction false} IdleOrDeletes(pool: Pool, current: Current, dead: set<string>)
    ensures Collect(pool, current, dead) == pool || exists n :: Delete(pool, current, dead, n)
  {
    hide Delete;
    if forall n :: n in pool ==> !Delete(pool, current, dead, n) {
      assert Collect(pool, current, dead) == pool;
    }
  }

  lemma {:induction false} SkippedIsUsed(pool: Pool, current: Current, dead: set<string>, n: string)
    requires Skip(pool, current, dead, n)
    ensures n in pool && !Delete(pool, current, dead, n) && exists v :: Backs(pool, v, n)
  {
  }

  /** In particular when no deleted image has a backing itself. */
  lemma {:induction false} RepeatIsIdleWithoutChains(pool: Pool, current: Current, dead: set<string>)
    requires forall n, b :: Delete(pool, current, dead, n) ==> !Backs(pool, n, b)
    ensures Collect(Collect(pool, current, dead), current, dead) == Collect(pool, current, dead)
  {
    hide ParseImage, Stale, Delete;
    var left := Collect(pool, current, dead);
    forall n | Skip(pool, current, dead, n) ensures exists v :: v in left && Backs(pool, v, n) {
      var v :| Backs(pool, v, n) by { SkippedIsUsed(pool, current, dead, n); }
      assert !Delete(pool, current, dead, v);
      assert v in left;
    }
    RepeatIsIdle(pool, current, dead);
  }

  /** Where that fails: two dead images, one an overlay on the other. The first pass can
      delete only the overlay, and the second deletes its base. */
  lemma {:induction false} ChainTakesTwoPasses(stem: string, over: string, base: string)
    requires stem != "" && over != base
    requires ParseImage(over) == Some(Image(stem, 2)) && ParseImage(base) == Some(Image(stem, 1))
    ensures var pool: Pool := map[over := Volume(1, Some(base)), base := Volume(1, None)];
            && Collect(pool, map[], {stem}) == map[base := Volume(1, None)]
            && Collect(Collect(pool, map[], {stem}), map[], {stem}) == map[]
  {
    var pool: Pool := map[over := Volume(1, Some(base)), base := Volume(1, None)];
    assert base != "" by {
      assert ParseImage("") == None;
    }
    assert Backs(pool, over, base);
    var left: Pool := map[base := Volume(1, None)];
    assert forall v :: !Backs(pool, v, over);
    assert Collect(pool, map[], {stem}) == left;
    assert forall v, n :: !Backs(left, v, n);
    assert Collect(left, map[], {stem}) == map[];
  }

  // ----- repeated collections -----------------------------------------------------------

  ghost function CollectTimes(pool: Pool, current: Current, dead: set<string>, k: nat): Pool
    decreases k
  {
    if k == 0 then pool else CollectTimes(Collect(pool, current, dead), current, dead, k - 1)
  }

  /** Repeating terminates: after as many passes as there are volumes nothing is left to delete. */
  lemma {:induction false} RepeatsSettle(pool: Pool, current: Current, dead: set<string>, k: nat)
    requires k >= |pool|
    ensures var last := CollectTimes(pool, current, dead, k); Collect(last, current, dead) == last
    decreases k
  {
    hide Delete, Collect;
    var left := Collect(pool, current, dead);
    if left == pool {
      Fixed(pool, current, dead, k);
    } else {
      CollectShrinks(pool, current, dead);
      RepeatsSettle(left, current, dead, k - 1);
    }
  }

  lemma {:induction false} CollectShrinks(pool: Pool, current: Current, dead: set<string>)
    requires Collect(pool, current, dead) != pool
    ensures |Collect(pool, current, dead)| < |pool|
  {
    hide Delete;
    IdleOrDeletes(pool, current, dead);
    var left := Collect(pool, current, dead);
    var n :| Delete(pool, current, dead, n);
    DeletedIsThere(pool, current, dead, n);
    assert left.Keys <= pool.Keys - {n};
    Smaller(left.Keys, pool.Keys - {n});
    assert |left.Keys| == |left| && |pool.Keys| == |pool|;
  }

  lemma {:induction false} Smaller(a: set<string>, b: set<string>)
    requires a <= b
    ensures |a| <= |b|
    decreases |a|
  {
    if x :| x in a {
      Smaller(a - {x}, b - {x});
    }
  }

  lemma {:induction false} DeletedIsThere(pool: Pool, current: Current, dead: set<string>, n: string)
    requires Delete(pool, current, dead, n)
    ensures n in pool
  {
  }

  lemma {:induction false} Fixed(pool: Pool, current: Current, dead: set<string>, k: nat)
    requires Collect(pool, current, dead) == pool
    ensures CollectTimes(pool, current, dead, k) == pool
    decreases k
  {
    if k > 0 {
      Fixed(pool, current, dead, k - 1);
    }
  }

  /** `n` is reached by `k` backing steps from a volume that is not a stale image. */
  ghost predicate Anchored(pool: Pool, current: Current, dead: set<string>, n: string, k: nat)
    decreases k
  {
    n in pool && if k == 0 then !Stale(pool, current, dead, n)
                 else exists v :: Backs(pool, v, n) && Anchored(pool, current, dead, v, k - 1)
  }

  /** The whole backing chain of a volume in use survives any number of passes. */
  lemma {:induction false} ChainsSurvive(pool: Pool, current: Current, dead: set<string>, n: string, k: nat, times: nat)
    requires Anchored(pool, current, dead, n, k)
    ensures n in CollectTimes(pool, current, dead, times)
    decreases times
  {
    hide Stale, ParseImage;
    AnchoredStays(pool, current, dead, n, k);
    if times > 0 {
      ChainsSurvive(Collect(pool, current, dead), current, dead, n, k, times - 1);
    }
  }

  lemma {:induction false} AnchoredStays(pool: Pool, current: Current, dead: set<string>, n: string, k: nat)
    requires Anchored(pool, current, dead, n, k)
    ensures n in Collect(pool, current, dead) && Anchored(Collect(pool, current, dead), current, dead, n, k)
    decreases k
  {
    hide ParseImage, Keep;
    var left := Collect(pool, current, dead);
    if k == 0 {
      assert n in left;
      KeepStable(pool, current, dead, n);
    } else {
      var v :| Backs(pool, v, n) && Anchored(pool, current, dead, v, k - 1);
      AnchoredStays(pool, current, dead, v, k - 1);
      assert InUse(pool, n);
      assert n in left && Backs(left, v, n);
    }
  }

  // ----- any sequence of collections and guests coming and going ------------------------

  datatype Event =
    | Gc(current: Current, dead: set<string>)
    | Create(name: string, volume: Volume)
    | Remove(name: string)

  /** libvirt creates an overlay only on a volume that exists; guests remove their own disks. */
  ghost predicate Possible(pool: Pool, e: Event) {
    match e
    case Gc(_, _) => true
    case Create(name, volume) => name !in pool && (volume.backing.Some? && volume.backing.value != "" ==> volume.backing.value in pool)
    case Remove(name) => !InUse(pool, name)
  }

  ghost function After(pool: Pool, e: Event): Pool {
    match e
    case Gc(current, dead) => Collect(pool, current, dead)
    case Create(name, volume) => pool[name := volume]
    case Remove(name) => pool - {name}
  }

  ghost predicate Trace(pool: Pool, events: seq<Event>)
    decreases |events|
  {
    events == [] || (Possible(pool, events[0]) && Trace(After(pool, events[0]), events[1..]))
  }

  ghost function AfterAll(pool: Pool, events: seq<Event>): Pool
    decreases |events|
  {
    if events == [] then pool else AfterAll(After(pool, events[0]), events[1..])
  }

  /** Every backing volume is in the pool. */
  ghost predicate BackingClosed(pool: Pool) { forall v, b :: Backs(pool, v, b) ==> b in pool }

  /** Over any sequence of collections, whatever the registrations and dead stems, no volume
      ever loses its backing. */
  lemma {:induction false} BackingStaysClosed(pool: Pool, events: seq<Event>)
    requires BackingClosed(pool) && Trace(pool, events)
    ensures BackingClosed(AfterAll(pool, events))
    decreases |events|
  {
    if events != [] {
      OneEvent(pool, events[0]);
      BackingStaysClosed(After(pool, events[0]), events[1..]);
    }
  }

  lemma {:induction false} OneEvent(pool: Pool, e: Event)
    requires BackingClosed(pool) && Possible(pool, e)
    ensures BackingClosed(After(pool, e))
  {
    var next := After(pool, e);
    forall v, b | Backs(next, v, b) ensures b in next {
      match e
      case Gc(current, dead) =>
        assert Backs(pool, v, b);
        CollectKeepsBacking(pool, current, dead, v, b);
      case Create(name, volume) =>
        assert v == name || Backs(pool, v, b);
      case Remove(name) =>
        assert Backs(pool, v, b);
    }
  }
}
