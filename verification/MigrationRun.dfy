/** Running a migration plan: every move, then every unlink, then every rmdir. A plan whose
    paths do not interfere runs to its end with a result that is known path by path. */
module MigrationRun {
  import opened Wrappers
  import opened FileTree

  type Moves = seq<(Path, Path)>

  function RunMoves(t: Tree, moves: Moves): Option<Tree>
    decreases |moves|
  {
    if moves == [] then Some(t)
    else
      match RunMove(t, moves[0])
      case None => None
      case Some(u) => RunMoves(u, moves[1..])
  }

  function RunMove(t: Tree, move: (Path, Path)): Option<Tree> {
    if move.1 == [] then None
    else
      match Mkdirs(t, Parent(move.1))
      case None => None
      case Some(u) => Rename(u, move.0, move.1)
  }

  function RunUnlinks(t: Tree, paths: seq<Path>): Option<Tree>
    decreases |paths|
  {
    if paths == [] then Some(t)
    else
      match Unlink(t, paths[0])
      case None => None
      case Some(u) => RunUnlinks(u, paths[1..])
  }

  function RunRmdirs(t: Tree, paths: seq<Path>): Option<Tree>
    decreases |paths|
  {
    if paths == [] then Some(t)
    else
      match Rmdir(t, paths[0])
      case None => None
      case Some(u) => RunRmdirs(u, paths[1..])
  }

  function Run(t: Tree, moves: Moves, duplicates: seq<Path>, prune: seq<Path>): Option<Tree> {
    match RunMoves(t, moves)
    case None => None
    case Some(u) =>
      match RunUnlinks(u, duplicates)
      case None => None
      case Some(v) => RunRmdirs(v, prune)
  }

  // ----- plans that do not interfere ----------------------------------------------------

  /** Nothing but directories stands above the destination: `mkdir` can make what is missing. */
  ghost predicate ParentReady(t: Tree, d: Path) { forall p :: Above(p, d) && p in t ==> t[p].Dir? }

  /** The moves' sources exist, their destinations are free but for a link, and no two paths
      of theirs lie within each other. */
  ghost predicate Ready(t: Tree, moves: Moves) {
    && (forall x :: x in moves ==> x.0 in t && x.1 != [] && (x.1 in t ==> t[x.1].Link?))
    && (forall x, y :: x in moves && y in moves ==> !Nested(x.0, y.1))
    && (forall i, j :: 0 <= i < j < |moves| ==> !Nested(moves[i].0, moves[j].0) && !Nested(moves[i].1, moves[j].1))
  }

  /** A directory `mkdir` may have made. */
  ghost predicate Made(moves: Moves, p: Path) {
    exists x :: x in moves && Above(p, x.1)
  }

  ghost predicate Untouched(moves: Moves, p: Path) {
    forall x :: x in moves ==> !(x.0 <= p) && !(x.1 <= p)
  }

  /** The tree after the moves, path by path. */
  ghost predicate MovesResult(t: Tree, moves: Moves, u: Tree) {
    && (forall x, p :: x in moves && x.1 <= p ==> Look(u, p) == Look(t, x.0 + p[|x.1|..]))
    && (forall x, p :: x in moves && x.0 <= p ==> p !in u)
    && (forall p :: Untouched(moves, p) ==>
          Look(u, p) == if p !in t && Made(moves, p) then Some(Dir) else Look(t, p))
  }

  /** A rename of a directory onto something that is not one. */
  predicate Blocked(t: Tree, move: (Path, Path)) {
    move.0 in t && t[move.0].Dir? && move.1 in t
  }

  /** `mkdir` succeeds unless something else stands in the way, and makes every directory. */
  lemma {:induction false} MkdirsRun(u: Tree, d: Path)
    requires d != [] && IsDir(u, []) && forall p, r :: Above(p, d) && IsDir(u, p) && Above(r, p) ==> IsDir(u, r)
    ensures Mkdirs(u, Parent(d)).Some? <==> forall p :: Above(p, d) && p in u ==> u[p].Dir?
    ensures Mkdirs(u, Parent(d)).Some? ==>
              forall p :: Look(Mkdirs(u, Parent(d)).value, p) == if Above(p, d) then Some(Dir) else Look(u, p)
    decreases |d|
  {
    hide Above;
    var q := Parent(d);
    forall p ensures Above(p, d) <==> p == q || Above(p, q) {
      AboveParent(d, p);
    }
    if q !in u {
      MkdirsRun(u, q);
    }
  }

  /** What stands above a destination, after earlier moves that left it alone. */
  lemma {:induction false} AboveAfter(t: Tree, u: Tree, moves: Moves, d: Path, p: Path)
    requires MovesResult(t, moves, u) && p <= d
    requires forall x :: x in moves ==> !Nested(x.0, d) && !Nested(x.1, d)
    ensures Look(u, p) == if p !in t && Made(moves, p) then Some(Dir) else Look(t, p)
  {
    hide Made, Nested, Untouched;
    AboveUntouched(moves, p, d);
  }

  lemma {:induction false} DirsAbove(t: Tree, u: Tree, moves: Moves, d: Path, p: Path, r: Path)
    requires Closed(t) && MovesResult(t, moves, u) && IsDir(u, p) && r <= p && p <= d
    requires forall x :: x in moves ==> !Nested(x.0, d) && !Nested(x.1, d) && ParentReady(t, x.1)
    ensures IsDir(u, r)
  {
    hide Nested, Closed, MovesResult, ParentReady;
    PrefixTrans(r, p, d);
    AboveAfter(t, u, moves, d, p);
    AboveAfter(t, u, moves, d, r);
    if p in t {
      if r != p {
        AboveIsDir(t, r, p);
      }
    } else {
      var x :| x in moves && Above(p, x.1);
      MadeAbove(t, moves, x, p, r);
    }
  }

  lemma {:induction false} MadeAbove(t: Tree, moves: Moves, x: (Path, Path), p: Path, r: Path)
    requires x in moves && ParentReady(t, x.1) && r <= p && Above(p, x.1)
    ensures Made(moves, r) && (r in t ==> t[r].Dir?)
  {
    PrefixTrans(r, p, x.1);
  }

  lemma {:induction false} MadeStep(t: Tree, u: Tree, moves: Moves, d: Path)
    requires Closed(t) && IsDir(t, []) && MovesResult(t, moves, u) && d != []
    requires forall x :: x in moves ==> !Nested(x.0, d) && !Nested(x.1, d) && ParentReady(t, x.1)
    ensures Mkdirs(u, Parent(d)).Some? <==> ParentReady(t, d)
    ensures Mkdirs(u, Parent(d)).Some? ==>
              forall p :: Look(Mkdirs(u, Parent(d)).value, p) == if Above(p, d) then Some(Dir) else Look(u, p)
  {
    hide Nested, Closed, MovesResult, Mkdirs, Made;
    AboveAfter(t, u, moves, d, []);
    forall p | Above(p, d) ensures (p in u ==> u[p].Dir?) <==> (p in t ==> t[p].Dir?) {
      AboveAfter(t, u, moves, d, p);
    }
    forall p, r | Above(p, d) && IsDir(u, p) && Above(r, p) ensures IsDir(u, r) {
      DirsAbove(t, u, moves, d, p, r);
    }
    MkdirsRun(u, d);
  }

  lemma {:induction false} AboveUntouched(moves: Moves, p: Path, d: Path)
    requires p <= d && forall x :: x in moves ==> !Nested(x.0, d) && !Nested(x.1, d)
    ensures Untouched(moves, p)
  {
    forall x | x in moves ensures !(x.0 <= p) && !(x.1 <= p) {
      if x.0 <= p {
        PrefixTrans(x.0, p, d);
      }
      if x.1 <= p {
        PrefixTrans(x.1, p, d);
      }
    }
  }

  lemma {:induction false} BelowUntouched(moves: Moves, s: Path, p: Path)
    requires s <= p && forall x :: x in moves ==> !Nested(x.0, s) && !Nested(x.1, s)
    ensures Untouched(moves, p)
  {
    forall x | x in moves ensures !(x.0 <= p) && !(x.1 <= p) {
      if x.0 <= p {
        PrefixesNest(x.0, s, p);
      }
      if x.1 <= p {
        PrefixesNest(x.1, s, p);
      }
    }
  }

  /** A source subtree is as it was before the earlier moves. */
  lemma {:induction false} SourceIntact(t: Tree, u: Tree, moves: Moves, s: Path, p: Path)
    requires MovesResult(t, moves, u) && Closed(t) && s in t && s <= p
    requires forall x :: x in moves ==> !Nested(x.0, s) && !Nested(x.1, s)
    ensures Look(u, p) == Look(t, p)
  {
    BelowUntouched(moves, s, p);
    if p !in t && Made(moves, p) {
      var x :| x in moves && Above(p, x.1);
      PrefixTrans(s, p, x.1);
      assert false;
    }
  }

  lemma {:induction false} NotAbove(s: Path, d: Path, p: Path)
    requires d != [] && !Nested(s, d) && s <= p
    ensures !Above(p, d)
  {
    if p <= d {
      PrefixTrans(s, p, d);
    }
  }

  lemma {:induction false} RenameReady(v: Tree, s: Path, d: Path)
    requires s in v && d != [] && IsDir(v, Parent(d)) && !Nested(s, d) && (d in v ==> v[d].Link?)
    ensures Rename(v, s, d) == if v[s].Dir? && d in v then None else Some(Moved(v, s, d))
  {
    hide Moved;
  }

  lemma {:induction false} Apart(t: Tree, moves: Moves, move: (Path, Path))
    requires Ready(t, moves + [move])
    ensures move.0 in t && move.1 != [] && (move.1 in t ==> t[move.1].Link?) && !Nested(move.0, move.1)
    ensures forall x :: x in moves ==>
              !Nested(x.0, move.1) && !Nested(x.1, move.1) && !Nested(x.0, move.0) && !Nested(x.1, move.0)
  {
    var all := moves + [move];
    assert all[|moves|] == move;
    forall x | x in moves
      ensures !Nested(x.0, move.1) && !Nested(x.1, move.1) && !Nested(x.0, move.0) && !Nested(x.1, move.0)
    {
      var i :| 0 <= i < |moves| && moves[i] == x;
      assert all[i] == x;
    }
  }

  lemma {:induction false} MoveStep(t: Tree, u: Tree, moves: Moves, move: (Path, Path))
    requires Closed(t) && IsDir(t, []) && Ready(t, moves + [move]) && MovesResult(t, moves, u)
    requires forall x :: x in moves ==> ParentReady(t, x.1)
    ensures RunMove(u, move).Some? <==> !Blocked(t, move) && ParentReady(t, move.1)
    ensures RunMove(u, move).Some? ==> MovesResult(t, moves + [move], RunMove(u, move).value)
  {
    hide MovesResult, Ready, Rename, Moved, Mkdirs, Closed, Nested, ParentReady;
    var (s, d) := move;
    Apart(t, moves, move);
    MadeStep(t, u, moves, d);
    if !ParentReady(t, d) {
      return;
    }
    var v := Mkdirs(u, Parent(d)).value;
    SelfPrefix(s);
    SourceIntact(t, u, moves, s, s);
    NotAbove(s, d, s);
    DestinationIntact(t, u, moves, d);
    assert Look(v, s) == Look(t, s) && Look(v, d) == Look(t, d) && Look(v, Parent(d)) == Some(Dir);
    RenameReady(v, s, d);
    if !Blocked(t, move) {
      MoveStepResult(t, u, v, moves, move);
    }
  }

  lemma {:induction false} SelfPrefix(p: Path)
    ensures p <= p && (p != [] ==> Parent(p) <= p && Parent(p) != p)
  {
  }

  lemma {:induction false} DestinationIntact(t: Tree, u: Tree, moves: Moves, d: Path)
    requires MovesResult(t, moves, u)
    requires forall x :: x in moves ==> !Nested(x.0, d) && !Nested(x.1, d)
    ensures Look(u, d) == Look(t, d)
  {
    AboveUntouched(moves, d, d);
    assert forall x :: x in moves ==> !(d <= x.1);
  }

  /** The last move, over the state `u` the earlier ones left, by way of `v` with its
      directory made, ending in `w`. */
  ghost predicate LastMove(t: Tree, u: Tree, v: Tree, w: Tree, moves: Moves, move: (Path, Path)) {
    && Closed(t) && MovesResult(t, moves, u) && move.0 in t && move.1 != [] && ParentReady(t, move.1) && !Nested(move.0, move.1)
    && (forall x :: x in moves ==>
          !Nested(x.0, move.1) && !Nested(x.1, move.1) && !Nested(x.0, move.0) && !Nested(x.1, move.0))
    && (forall p :: Look(v, p) == if Above(p, move.1) then Some(Dir) else Look(u, p))
    && (forall p :: Look(w, p)
                 == if move.1 <= p then Look(v, move.0 + p[|move.1|..]) else if move.0 <= p then None else Look(v, p))
  }

  lemma {:induction false} MoveStepResult(t: Tree, u: Tree, v: Tree, moves: Moves, move: (Path, Path))
    requires Closed(t) && MovesResult(t, moves, u) && move.0 in t && move.1 != [] && ParentReady(t, move.1) && !Nested(move.0, move.1)
    requires forall x :: x in moves ==>
               !Nested(x.0, move.1) && !Nested(x.1, move.1) && !Nested(x.0, move.0) && !Nested(x.1, move.0)
    requires forall p :: Look(v, p) == if Above(p, move.1) then Some(Dir) else Look(u, p)
    ensures MovesResult(t, moves + [move], Moved(v, move.0, move.1))
  {
    hide MovesResult, Closed, Nested;
    var w := Moved(v, move.0, move.1);
    assert LastMove(t, u, v, w, moves, move);
    RenameArrives(t, u, v, w, moves, move);
    Departed(t, u, v, w, moves, move);
    OthersKept(t, u, v, w, moves, move);
    hide LastMove;
    MovesResultIs(t, moves + [move], w);
  }

  lemma {:induction false} MovesResultIs(t: Tree, moves: Moves, u: Tree)
    requires forall x, p :: x in moves && x.1 <= p ==> Look(u, p) == Look(t, x.0 + p[|x.1|..])
    requires forall x, p :: x in moves && x.0 <= p ==> p !in u
    requires forall p :: Untouched(moves, p) ==> Look(u, p) == if p !in t && Made(moves, p) then Some(Dir) else Look(t, p)
    ensures MovesResult(t, moves, u)
  {
    hide Look, Untouched, Made;
  }

  lemma {:induction false} RenameArrives(t: Tree, u: Tree, v: Tree, w: Tree, moves: Moves, move: (Path, Path))
    requires LastMove(t, u, v, w, moves, move)
    ensures forall x, p :: x in moves + [move] && x.1 <= p ==> Look(w, p) == Look(t, x.0 + p[|x.1|..])
  {
    hide Closed;
    var (s, d) := move;
    forall x, p | x in moves + [move] && x.1 <= p ensures Look(w, p) == Look(t, x.0 + p[|x.1|..]) {
      if x in moves {
        OldMoveKept(x, s, d, p);
      } else {
        assert x == move;
        var q := s + p[|d|..];
        SourceIntact(t, u, moves, s, q);
        NotAbove(s, d, q);
      }
    }
  }

  lemma {:induction false} Departed(t: Tree, u: Tree, v: Tree, w: Tree, moves: Moves, move: (Path, Path))
    requires LastMove(t, u, v, w, moves, move)
    ensures forall x, p :: x in moves + [move] && x.0 <= p ==> p !in w
  {
    hide Closed;
    var (s, d) := move;
    forall x, p | x in moves + [move] && x.0 <= p ensures p !in w {
      if x in moves {
        OldSourceGone(x, s, d, p);
        assert p !in u;
      } else {
        assert x == move;
        if d <= p {
          PrefixesNest(s, d, p);
        }
      }
      assert Look(w, p) == None;
    }
  }

  lemma {:induction false} OthersKept(t: Tree, u: Tree, v: Tree, w: Tree, moves: Moves, move: (Path, Path))
    requires LastMove(t, u, v, w, moves, move)
    ensures var all := moves + [move];
            forall p :: Untouched(all, p) ==> Look(w, p) == if p !in t && Made(all, p) then Some(Dir) else Look(t, p)
  {
    hide Closed, Nested;
    var (s, d) := move;
    var all := moves + [move];
    assert all[|moves|] == move;
    forall x ensures x in all <==> x in moves || x == move {}
    forall p | Untouched(all, p)
      ensures Look(w, p) == if p !in t && Made(all, p) then Some(Dir) else Look(t, p)
    {
      assert Untouched(moves, p);
      assert Look(w, p) == Look(v, p);
      assert Made(all, p) <==> Made(moves, p) || Above(p, d);
      if Above(p, d) && p in t {
        assert IsDir(t, p);
      }
    }
  }

  lemma {:induction false} OldMoveKept(x: (Path, Path), s: Path, d: Path, p: Path)
    requires d != [] && x.1 <= p && !Nested(x.1, d) && !Nested(x.1, s)
    ensures !(d <= p) && !(s <= p) && !Above(p, d)
  {
    if d <= p {
      PrefixesNest(x.1, d, p);
    }
    if s <= p {
      PrefixesNest(x.1, s, p);
    }
    if p <= d {
      PrefixTrans(x.1, p, d);
    }
  }

  lemma {:induction false} OldSourceGone(x: (Path, Path), s: Path, d: Path, p: Path)
    requires d != [] && x.0 <= p && !Nested(x.0, d) && !Nested(x.0, s)
    ensures !(d <= p) && !(s <= p) && !Above(p, d)
  {
    OldMoveKept((x.1, x.0), s, d, p);
  }

  lemma {:induction false} RunMovesSnoc(t: Tree, moves: Moves, move: (Path, Path))
    ensures RunMoves(t, moves + [move])
         == match RunMoves(t, moves)
            case None => None
            case Some(u) => RunMove(u, move)
    decreases |moves|
  {
    hide RunMove;
    var all := moves + [move];
    if moves == [] {
      assert all == [move] && all[1..] == [];
    } else {
      assert all[0] == moves[0] && all[1..] == moves[1..] + [move];
      if RunMove(t, moves[0]).Some? {
        RunMovesSnoc(RunMove(t, moves[0]).value, moves[1..], move);
      }
    }
  }

  /** Ready moves run to the end unless a directory is renamed onto a link or something else
      than a directory stands above a destination, and the tree they leave is known path by
      path. */
  lemma {:induction false} MovesRun(t: Tree, moves: Moves)
    requires Closed(t) && IsDir(t, []) && Ready(t, moves)
    ensures RunMoves(t, moves).Some? <==> forall x :: x in moves ==> !Blocked(t, x) && ParentReady(t, x.1)
    ensures RunMoves(t, moves).Some? ==> MovesResult(t, moves, RunMoves(t, moves).value)
    decreases |moves|
  {
    hide RunMove, Ready, MovesResult, RunMoves, ParentReady, Blocked;
    if moves == [] {
      NoMoves(t);
    } else {
      var init, last := moves[..|moves| - 1], moves[|moves| - 1];
      assert moves == init + [last];
      ReadyInit(t, init, last);
      MovesRun(t, init);
      RunMovesSnoc(t, init, last);
      if RunMoves(t, init).Some? {
        MoveStep(t, RunMoves(t, init).value, init, last);
      }
      forall x ensures x in moves <==> x in init || x == last {}
    }
  }

  lemma {:induction false} NoMoves(t: Tree)
    ensures RunMoves(t, []) == Some(t) && MovesResult(t, [], t)
  {
  }

  lemma {:induction false} ReadyInit(t: Tree, init: Moves, last: (Path, Path))
    requires Ready(t, init + [last])
    ensures Ready(t, init)
  {
    var all := init + [last];
    assert forall i :: 0 <= i < |init| ==> all[i] == init[i];
    assert forall x :: x in init ==> x in all;
  }

  // ----- unlinks and rmdirs -------------------------------------------------------------

  lemma {:induction false} UnlinksRun(u: Tree, paths: seq<Path>)
    requires Distinct(paths) && forall p :: p in paths ==> p in u && !u[p].Dir?
    ensures RunUnlinks(u, paths).Some?
    ensures forall p :: Look(RunUnlinks(u, paths).value, p) == if p in paths then None else Look(u, p)
    decreases |paths|
  {
    if paths != [] {
      var first, rest := paths[0], paths[1..];
      var v := u - {first};
      forall p | p in rest ensures p in v && !v[p].Dir? {
        var i :| 0 <= i < |rest| && rest[i] == p;
        assert paths[i + 1] == p && p in paths;
      }
      UnlinksRun(v, rest);
      assert forall p :: p in paths <==> p == first || p in rest;
    }
  }

  /** Directories listed children-first, each with no child but earlier ones. */
  ghost predicate Emptied(v: Tree, paths: seq<Path>) {
    && Distinct(paths)
    && (forall k :: 0 <= k < |paths| ==> IsDir(v, paths[k]))
    && (forall k, q :: 0 <= k < |paths| && q in v && paths[k] <= q && q != paths[k] ==>
          exists j :: 0 <= j < k && paths[j] == q)
  }

  lemma {:induction false} RmdirsRun(v: Tree, paths: seq<Path>)
    requires Emptied(v, paths)
    ensures RunRmdirs(v, paths).Some?
    ensures forall p :: Look(RunRmdirs(v, paths).value, p) == if p in paths then None else Look(v, p)
    decreases |paths|
  {
    if paths != [] {
      var first, rest := paths[0], paths[1..];
      var w := v - {first};
      assert IsDir(v, paths[0]);
      assert Rmdir(v, first) == Some(w);
      forall k | 0 <= k < |rest| ensures IsDir(w, rest[k]) {
        assert rest[k] == paths[k + 1];
      }
      forall k, q | 0 <= k < |rest| && q in w && rest[k] <= q && q != rest[k]
        ensures exists j :: 0 <= j < k && rest[j] == q
      {
        assert rest[k] == paths[k + 1];
        var j :| 0 <= j < k + 1 && paths[j] == q;
        assert j > 0 && rest[j - 1] == q;
      }
      RmdirsRun(w, rest);
      assert forall p :: p in paths <==> p == first || p in rest;
    }
  }
}
