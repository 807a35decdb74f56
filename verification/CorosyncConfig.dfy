/** The whole file: its totem section, its heartbeat links, and the configured file. */
module CorosyncConfig {
  import opened Wrappers
  import opened CorosyncSyntax
  import opened CorosyncTree
  import opened CorosyncEdit

  // ----- the totem section --------------------------------------------------------------

  /** How many top-level sections are named `totem`. */
  function TotemCount(d: Doc): nat {
    match d
    case End => 0
    case Row(_, rest) => TotemCount(rest)
    case Block(o, _, _, rest) => (if NameOf(o) == "totem" then 1 else 0) + TotemCount(rest)
  }

  /** The opening line and the body of the first top-level totem section. */
  function Totem(d: Doc): (string, Doc)
    requires TotemCount(d) > 0
  {
    match d
    case Row(_, rest) => Totem(rest)
    case Block(o, b, _, rest) => if NameOf(o) == "totem" then (o, b) else Totem(rest)
  }

  function WithTotem(d: Doc, body: Doc): Doc {
    match d
    case End => End
    case Row(l, rest) => Row(l, WithTotem(rest, body))
    case Block(o, b, c, rest) =>
      if NameOf(o) == "totem" then Block(o, body, c, rest) else Block(o, b, c, WithTotem(rest, body))
  }

  // ----- the heartbeat links ------------------------------------------------------------

  function RingsOfKeys(keys: set<string>): set<nat> {
    set k | k in keys && RingNumber(k).Some? :: RingNumber(k).value
  }

  function KeySet(d: Doc): set<string> {
    match d
    case End => {}
    case Row(l, rest) => (if Classify(l).Key? then {Classify(l).key} else {}) + KeySet(rest)
    case Block(_, _, _, rest) => KeySet(rest)
  }

  /** The ring numbers in the `node` sections directly inside a body. */
  function NodeRings(d: Doc): set<nat> {
    match d
    case End => {}
    case Row(_, rest) => NodeRings(rest)
    case Block(o, b, _, rest) => (if NameOf(o) == "node" then RingsOfKeys(KeySet(b)) else {}) + NodeRings(rest)
  }

  /** The ring numbers of the whole file: `node` sections of top-level `nodelist` sections. */
  function Rings(d: Doc): set<nat> {
    match d
    case End => {}
    case Row(_, rest) => Rings(rest)
    case Block(o, b, _, rest) => (if NameOf(o) == "nodelist" then NodeRings(b) else {}) + Rings(rest)
  }

  predicate Ascending(s: seq<nat>) { forall i, j :: 0 <= i < j < |s| ==> s[i] < s[j] }

  ghost predicate IsLeast(m: nat, s: set<nat>) { m in s && forall x :: x in s ==> m <= x }

  lemma {:induction false} LeastOf(s: set<nat>) returns (m: nat)
    requires s != {}
    ensures IsLeast(m, s)
    decreases |s|
  {
    var a :| a in s;
    var s' := s - {a};
    assert forall x :: x in s ==> x == a || x in s';
    if s' == {} {
      m := a;
    } else {
      m := LeastOf(s');
      m := if a < m then a else m;
    }
  }

  lemma {:induction false} LeastExists(s: set<nat>)
    requires s != {}
    ensures exists m :: IsLeast(m, s)
  {
    var m := LeastOf(s);
  }

  function Least(s: set<nat>): (m: nat)
    requires s != {}
    ensures IsLeast(m, s)
  {
    LeastExists(s);
    var m :| m in s && forall x :: x in s ==> m <= x;
    m
  }

  /** `sorted(s)`: strictly ascending, with exactly the elements of the set. */
  function Sorted(s: set<nat>): (r: seq<nat>)
    ensures Ascending(r) && (forall x :: x in r <==> x in s)
    decreases |s|
  {
    if s == {} then []
    else
      var m := Least(s);
      var rest := Sorted(s - {m});
      AscendingCons(m, rest, s);
      [m] + rest
  }

  lemma {:induction false} AscendingCons(m: nat, rest: seq<nat>, s: set<nat>)
    requires IsLeast(m, s) && Ascending(rest) && forall x :: x in rest <==> x in s - {m}
    ensures Ascending([m] + rest) && forall x :: x in [m] + rest <==> x in s
  {
    forall i | 0 <= i < |rest| ensures m < rest[i] {
      assert rest[i] in s - {m};
    }
  }

  /** The links in the order they are edited; link 0 alone when the nodelist names none. */
  function LinksFrom(rings: set<nat>): (r: seq<nat>)
    ensures Ascending(r) && |r| > 0
  {
    if rings == {} then [0]
    else
      var least := Least(rings);
      assert least in Sorted(rings);
      Sorted(rings)
  }

  function Links(d: Doc): seq<nat> { LinksFrom(Rings(d)) }

  // ----- the configured file ------------------------------------------------------------

  /** A file that can be edited: exactly one totem section. */
  ghost predicate Editable(d: Doc) { WellFormed(d) && TotemCount(d) == 1 }

  /** The edits the whole file still needs. */
  function Missing(d: Doc, token: nat): nat
    requires TotemCount(d) > 0
  {
    Todo(Totem(d).1, Links(d), token)
  }

  /** The file after its first missing edit. */
  function NextFile(d: Doc, token: nat): Option<Doc>
    requires TotemCount(d) > 0
  {
    var (o, b) := Totem(d);
    match Next(o, b, Links(d), token)
    case None => None
    case Some(b') => Some(WithTotem(d, b'))
  }

  /** The file with every heartbeat setting in place. */
  function Configure(d: Doc, token: nat): Doc
    requires TotemCount(d) > 0
  {
    var (o, b) := Totem(d);
    WithTotem(d, Settle(o, b, Links(d), token))
  }

  // ----- replacing the totem body changes nothing else ----------------------------------

  lemma {:induction false} WithTotemEffect(d: Doc, body: Doc)
    requires TotemCount(d) > 0
    ensures TotemCount(WithTotem(d, body)) == TotemCount(d)
    ensures Totem(WithTotem(d, body)) == (Totem(d).0, body)
    ensures Rings(WithTotem(d, body)) == Rings(d)
    ensures WellFormed(d) ==> WellFormed(Totem(d).1)
    ensures WellFormed(d) && WellFormed(body) ==> WellFormed(WithTotem(d, body))
    ensures WithTotem(d, Totem(d).1) == d
    decreases d
  {
    hide Classify, NameOf, NodeRings;
    match d {
      case Row(_, rest) => WithTotemEffect(rest, body);
      case Block(o, b, c, rest) =>
        if NameOf(o) != "totem" {
          WithTotemEffect(rest, body);
        }
    }
  }

  lemma {:induction false} WithTotemTwice(d: Doc, x: Doc, y: Doc)
    ensures WithTotem(WithTotem(d, x), y) == WithTotem(d, y)
    decreases d
  {
    hide Classify, NameOf;
    match d {
      case End =>
      case Row(_, rest) => WithTotemTwice(rest, x, y);
      case Block(o, b, c, rest) =>
        if NameOf(o) != "totem" {
          WithTotemTwice(rest, x, y);
        }
    }
  }

  /** One pass over the whole file: it makes one missing edit, keeps the links, and leads to
      the same configured file; a pass with nothing to do means the file is configured. */
  lemma {:induction false} NextFileEffect(d: Doc, token: nat)
    requires Editable(d)
    ensures NextFile(d, token).None? <==> Missing(d, token) == 0
    ensures NextFile(d, token).None? ==> Configure(d, token) == d
    ensures NextFile(d, token).Some? ==>
              var e := NextFile(d, token).value;
              && Editable(e) && Links(e) == Links(d) && Missing(e, token) + 1 == Missing(d, token)
              && Configure(e, token) == Configure(d, token)
  {
    hide Classify, Next, Settle, Todo, Totem, TotemCount, WithTotem;
    var (o, b) := Totem(d);
    WithTotemEffect(d, b);
    NextEffect(o, b, Links(d), token);
    if Next(o, b, Links(d), token).Some? {
      var b' := Next(o, b, Links(d), token).value;
      WithTotemEffect(d, b');
      WithTotemTwice(d, b', Settle(o, b', Links(d), token));
    }
  }

  /** The bound of the edit loop: the passes a file needs, one more than its missing edits,
      are at most `2 + 4 * links`. */
  lemma {:induction false} MissingBound(d: Doc, token: nat)
    requires TotemCount(d) > 0
    ensures Missing(d, token) + 1 <= 2 + 4 * |Links(d)|
  {
    TodoBound(Totem(d).1, Links(d), token);
  }

  /** The bound is tight: a file with an empty totem section needs every pass of it. */
  lemma {:induction false} MissingBoundTight(d: Doc, token: nat)
    requires TotemCount(d) > 0 && Totem(d).1 == End
    ensures Missing(d, token) + 1 == 2 + 4 * |Links(d)|
  {
    EmptyTodo(Links(d), HeartbeatValues(token));
  }

  lemma {:induction false} EmptyTodo(links: seq<nat>, pairs: Pairs)
    requires |pairs| == 3
    ensures LinksTodo(End, links, pairs) == 4 * |links|
    decreases |links|
  {
    if links != [] {
      EmptyTodo(links[1..], pairs);
    }
  }

  lemma {:induction false} ConfigureEffect(d: Doc, token: nat)
    requires Editable(d)
    ensures Editable(Configure(d, token)) && Links(Configure(d, token)) == Links(d)
    ensures Missing(Configure(d, token), token) == 0
    ensures Configure(Configure(d, token), token) == Configure(d, token)
  {
    hide Classify, Next, Settle, Todo, Totem, TotemCount, WithTotem;
    var (o, b) := Totem(d);
    WithTotemEffect(d, b);
    SettleIsDone(o, b, Links(d), token);
    WithTotemEffect(d, Settle(o, b, Links(d), token));
    NextFileEffect(Configure(d, token), token);
  }
}
