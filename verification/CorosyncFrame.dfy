/** What configuring leaves alone: every line outside the totem section, and inside it every
    line but the heartbeat keys; and the theorems about the texts themselves. */
module CorosyncFrame {
  import opened Wrappers
  import opened Text
  import opened CorosyncSyntax
  import opened CorosyncTree
  import opened CorosyncEdit
  import opened CorosyncConfig
  import opened CorosyncLocate
  import opened CorosyncEditor
  import opened CorosyncLaws

  // ----- how a body may change ----------------------------------------------------------

  const TOKEN_KEY: set<string> := {"token"}

  const KNET_KEYS: set<string> := {"knet_ping_timeout", "knet_ping_interval", "knet_pong_count"}

  /** The line `m` gives the same key as `l` another value, at the same indent. */
  ghost predicate Rewritten(l: string, m: string) {
    Classify(l).Key? && Classify(m).Key? && Classify(m).key == Classify(l).key && IndentOf(m) == IndentOf(l)
  }

  /** The line sets one of the keys still awaited. */
  predicate Sets(l: string, keys: set<string>) { Classify(l).Key? && Classify(l).key in keys }

  /** The keys still awaited after a line: only the first line of a key counts. */
  function KeysAfter(l: string, keys: set<string>): set<string> {
    if Classify(l).Key? then keys - {Classify(l).key} else keys
  }

  /** The block is the interface of one of the links still awaited. */
  predicate Serves(o: string, b: Doc, links: set<nat>) { exists n :: n in links && IsIface(o, b, n) }

  /** The links still awaited after a block: only the first block of a link counts. */
  function LinksAfter(o: string, b: Doc, links: set<nat>): set<nat> { set n | n in links && !IsIface(o, b, n) }

  /** Lines added at the end of a body: one for each key at most, and one interface block for
      each link at most, that the body did not have. */
  ghost predicate Fresh(e: Doc, keys: set<string>, links: set<nat>) {
    match e
    case End => true
    case Row(l, r) => Sets(l, keys) && Fresh(r, KeysAfter(l, keys), links)
    case Block(o, b, c, r) =>
      && Classify(o) == Open("interface") && Classify(c) == Close && Serves(o, b, links)
      && b.Row? && Classify(b.line).Key? && Classify(b.line).key == "linknumber" && Fresh(b.rest, KNET_KEYS, {})
      && Fresh(r, keys, LinksAfter(o, b, links))
  }

  /** `e` is `d` but for the first line of each of the keys, the knet values in the first
      interface block of each of the links, and lines added at the end of the body and of
      those blocks. Every other line, later lines of the same key and later blocks of the
      same link included, stays as it is. */
  ghost predicate Evolves(d: Doc, e: Doc, keys: set<string>, links: set<nat>)
    decreases d
  {
    match d
    case End => Fresh(e, keys, links)
    case Row(l, r) =>
      && e.Row? && (e.line == l || (Sets(l, keys) && Rewritten(l, e.line)))
      && Evolves(r, e.rest, KeysAfter(l, keys), links)
    case Block(o, b, c, r) =>
      && e.Block? && e.open == o && e.close == c
      && (if Serves(o, b, links) then Evolves(b, e.body, KNET_KEYS, {}) else e.body == b)
      && Evolves(r, e.rest, keys, LinksAfter(o, b, links))
  }

  lemma {:induction false} EvolvesRefl(d: Doc, keys: set<string>, links: set<nat>)
    ensures Evolves(d, d, keys, links)
    decreases d
  {
    hide Sets, Serves, KeysAfter, LinksAfter;
    match d {
      case End =>
      case Row(l, r) => EvolvesRefl(r, KeysAfter(l, keys), links);
      case Block(o, b, _, r) =>
        EvolvesRefl(b, KNET_KEYS, {});
        EvolvesRefl(r, keys, LinksAfter(o, b, links));
    }
  }

  /** Every direct key that is not awaited keeps its effective value. */
  lemma {:induction false} EvolvesLookup(d: Doc, e: Doc, keys: set<string>, links: set<nat>, key: string)
    requires Evolves(d, e, keys, links) && key !in keys
    ensures Lookup(e, key) == Lookup(d, key)
    decreases d
  {
    hide Classify, IndentOf, Serves, LinksAfter;
    match d {
      case End => FreshLookup(e, keys, links, key);
      case Row(l, r) => EvolvesLookup(r, e.rest, KeysAfter(l, keys), links, key);
      case Block(o, b, _, r) => EvolvesLookup(r, e.rest, keys, LinksAfter(o, b, links), key);
    }
  }

  lemma {:induction false} FreshLookup(e: Doc, keys: set<string>, links: set<nat>, key: string)
    requires Fresh(e, keys, links) && key !in keys
    ensures Lookup(e, key).None?
    decreases e
  {
    hide Classify, Serves, LinksAfter;
    match e {
      case End =>
      case Row(l, r) => FreshLookup(r, KeysAfter(l, keys), links, key);
      case Block(o, b, _, r) => FreshLookup(r, keys, LinksAfter(o, b, links), key);
    }
  }

  /** An interface block stays the block of its link. */
  lemma {:induction false} SameServes(o: string, b: Doc, a: Doc, links: set<nat>)
    requires Evolves(b, a, KNET_KEYS, {})
    ensures forall n: nat :: IsIface(o, a, n) == IsIface(o, b, n)
    ensures Serves(o, a, links) == Serves(o, b, links) && LinksAfter(o, a, links) == LinksAfter(o, b, links)
  {
    hide Classify, Evolves, Lookup;
    EvolvesLookup(b, a, KNET_KEYS, {}, "linknumber");
  }

  lemma {:induction false} FreshEvolves(e: Doc, f: Doc, keys: set<string>, links: set<nat>)
    requires Fresh(e, keys, links) && Evolves(e, f, keys, links)
    ensures Fresh(f, keys, links)
    decreases e
  {
    hide Classify, IndentOf, Serves, LinksAfter;
    match e {
      case End =>
      case Row(l, r) => FreshEvolves(r, f.rest, KeysAfter(l, keys), links);
      case Block(o, b, c, r) =>
        SameServes(o, b, f.body, links);
        assert "linknumber" !in KNET_KEYS && KeysAfter(b.line, KNET_KEYS) == KNET_KEYS;
        FreshEvolves(b.rest, f.body.rest, KNET_KEYS, {});
        FreshEvolves(r, f.rest, keys, LinksAfter(o, b, links));
    }
  }

  lemma {:induction false} EvolvesTrans(d: Doc, e: Doc, f: Doc, keys: set<string>, links: set<nat>)
    requires Evolves(d, e, keys, links) && Evolves(e, f, keys, links)
    ensures Evolves(d, f, keys, links)
    decreases d
  {
    hide Classify, IndentOf, Serves, LinksAfter;
    match d {
      case End => FreshEvolves(e, f, keys, links);
      case Row(l, r) => EvolvesTrans(r, e.rest, f.rest, KeysAfter(l, keys), links);
      case Block(o, b, c, r) =>
        if Serves(o, b, links) {
          SameServes(o, b, e.body, links);
          EvolvesTrans(b, e.body, f.body, KNET_KEYS, {});
        }
        EvolvesTrans(r, e.rest, f.rest, keys, LinksAfter(o, b, links));
    }
  }

  // ----- each edit is such a change -----------------------------------------------------

  lemma {:induction false} SetRowEvolves(d: Doc, key: string, value: string, keys: set<string>, links: set<nat>)
    requires key in keys && IsName(key) && Trimmed(value)
    ensures Evolves(d, SetRow(d, key, value), keys, links)
    decreases d
  {
    hide Classify, KeyLine, IndentOf, IsName, Trimmed, Serves, LinksAfter;
    match d {
      case End =>
      case Row(l, r) =>
        KeyLineRead(IndentOf(l), key, value);
        EvolvesRefl(r, KeysAfter(l, keys), links);
        if !(Classify(l).Key? && Classify(l).key == key) {
          SetRowEvolves(r, key, value, KeysAfter(l, keys), links);
        }
      case Block(o, b, _, r) =>
        EvolvesRefl(b, KNET_KEYS, {});
        SetRowEvolves(r, key, value, keys, LinksAfter(o, b, links));
    }
  }

  /** A line for a key the body lacks may be added. */
  lemma {:induction false} AppendRowEvolves(d: Doc, l: string, keys: set<string>, links: set<nat>)
    requires Sets(l, keys) && Lookup(d, Classify(l).key).None?
    ensures Evolves(d, Append(d, Row(l, End)), keys, links)
    decreases d
  {
    hide Classify, Serves, LinksAfter;
    match d {
      case End => assert Fresh(End, KeysAfter(l, keys), links);
      case Row(m, r) => AppendRowEvolves(r, l, KeysAfter(m, keys), links);
      case Block(o, b, _, r) =>
        EvolvesRefl(b, KNET_KEYS, {});
        AppendRowEvolves(r, l, keys, LinksAfter(o, b, links));
    }
  }

  /** A block for a link the body lacks may be added. */
  lemma {:induction false} AppendBlockEvolves(d: Doc, e: Doc, link: nat, keys: set<string>, links: set<nat>)
    requires link in links && !HasIface(d, link) && NewBlock(e, link)
    ensures Evolves(d, Append(d, e), keys, links)
    decreases d
  {
    hide Classify, IfaceNumber, Decimal;
    match d {
      case End => NewBlockIsFresh(e, link, keys, links);
      case Row(m, r) => AppendBlockEvolves(r, e, link, KeysAfter(m, keys), links);
      case Block(o, b, _, r) =>
        EvolvesRefl(b, KNET_KEYS, {});
        AppendBlockEvolves(r, e, link, keys, LinksAfter(o, b, links));
    }
  }

  /** A lone interface block of a link, with nothing but its number in it. */
  ghost predicate NewBlock(e: Doc, link: nat) {
    && e.Block? && e.rest == End && Classify(e.open) == Open("interface") && Classify(e.close) == Close
    && IsIface(e.open, e.body, link)
    && e.body.Row? && e.body.rest == End && Classify(e.body.line).Key? && Classify(e.body.line).key == "linknumber"
  }

  lemma {:induction false} NewBlockIsFresh(e: Doc, link: nat, keys: set<string>, links: set<nat>)
    requires link in links && NewBlock(e, link)
    ensures Fresh(e, keys, links)
  {
    hide Classify, IfaceNumber, Decimal;
    assert Serves(e.open, e.body, links);
    assert Fresh(End, KNET_KEYS, {}) && Fresh(End, keys, LinksAfter(e.open, e.body, links));
  }

  lemma {:induction false} PutKeyEvolves(
      o: string, d: Doc, key: string, value: string, keys: set<string>, links: set<nat>)
    requires key in keys && IsName(key) && Trimmed(value)
    ensures Evolves(d, PutKey(o, d, key, value), keys, links)
  {
    hide Classify, KeyLine, IsName, Trimmed, Evolves, SetRow, Append, Lookup, ChildIndent, AllSpace;
    EvolvesRefl(d, keys, links);
    SetRowEvolves(d, key, value, keys, links);
    KeyLineRead(ChildIndent(o, d), key, value);
    if Lookup(d, key).None? {
      AppendRowEvolves(d, KeyLine(ChildIndent(o, d), key, value), keys, links);
    }
  }

  ghost predicate AllAwaited(pairs: Pairs, keys: set<string>) {
    Writable(pairs) && forall i :: 0 <= i < |pairs| ==> pairs[i].0 in keys
  }

  lemma {:induction false} PutAllEvolves(o: string, d: Doc, pairs: Pairs, keys: set<string>, links: set<nat>)
    requires AllAwaited(pairs, keys)
    ensures Evolves(d, PutAll(o, d, pairs), keys, links)
    decreases |pairs|
  {
    hide Classify, IsName, Trimmed, Evolves, PutKey;
    if pairs == [] {
      EvolvesRefl(d, keys, links);
    } else {
      var d' := PutKey(o, d, pairs[0].0, pairs[0].1);
      PutKeyEvolves(o, d, pairs[0].0, pairs[0].1, keys, links);
      PutAllEvolves(o, d', pairs[1..], keys, links);
      EvolvesTrans(d, d', PutAll(o, d', pairs[1..]), keys, links);
    }
  }

  lemma {:induction false} SetIfaceEvolves(d: Doc, link: nat, body: Doc, keys: set<string>, links: set<nat>)
    requires link in links && HasIface(d, link) && Evolves(Iface(d, link).1, body, KNET_KEYS, {})
    ensures Evolves(d, SetIface(d, link, body), keys, links)
    decreases d
  {
    hide Classify, IfaceNumber, Decimal;
    match d {
      case Row(l, r) => SetIfaceEvolves(r, link, body, KeysAfter(l, keys), links);
      case Block(o, b, c, r) =>
        EvolvesRefl(b, KNET_KEYS, {});
        if IsIface(o, b, link) {
          EvolvesRefl(r, keys, LinksAfter(o, b, links));
        } else {
          SetIfaceEvolves(r, link, body, keys, LinksAfter(o, b, links));
        }
    }
  }

  lemma {:induction false} NewIfaceIsNew(indent: string, link: nat)
    requires AllSpace(indent)
    ensures NewBlock(NewIface(indent, link), link)
  {
    hide Classify, KeyLine, OpenLine, CloseLine, Decimal;
    NewIfaceLines(indent, link);
    NewIfaceEffect(indent, link);
  }

  lemma {:induction false} SetLinkEvolves(
      o: string, d: Doc, link: nat, pairs: Pairs, keys: set<string>, links: set<nat>)
    requires AllAwaited(pairs, KNET_KEYS) && link in links
    ensures Evolves(d, SetLink(o, d, link, pairs), keys, links)
  {
    hide Classify, Evolves, HasIface, Iface, SetIface, PutAll, Append, NewIface, ChildIndent, AllAwaited, NewBlock;
    var d' := EnsureIface(o, d, link);
    SameRefl(d);
    SameEnsure(o, d, d, link);
    EvolvesRefl(d, keys, links);
    if !HasIface(d, link) {
      NewIfaceIsNew(ChildIndent(o, d), link);
      AppendBlockEvolves(d, NewIface(ChildIndent(o, d), link), link, keys, links);
    }
    var (io, ib) := Iface(d', link);
    PutAllEvolves(io, ib, pairs, KNET_KEYS, {});
    SetIfaceEvolves(d', link, PutAll(io, ib, pairs), keys, links);
    EvolvesTrans(d, d', SetIface(d', link, PutAll(io, ib, pairs)), keys, links);
  }

  lemma {:induction false} SetLinksEvolves(
      o: string, d: Doc, todo: seq<nat>, pairs: Pairs, keys: set<string>, links: set<nat>)
    requires AllAwaited(pairs, KNET_KEYS) && forall i :: 0 <= i < |todo| ==> todo[i] in links
    ensures Evolves(d, SetLinks(o, d, todo, pairs), keys, links)
    decreases |todo|
  {
    hide Classify, Evolves, SetLink, AllAwaited;
    if todo == [] {
      EvolvesRefl(d, keys, links);
    } else {
      var d' := SetLink(o, d, todo[0], pairs);
      SetLinkEvolves(o, d, todo[0], pairs, keys, links);
      SetLinksEvolves(o, d', todo[1..], pairs, keys, links);
      EvolvesTrans(d, d', SetLinks(o, d', todo[1..], pairs), keys, links);
    }
  }

  function Elements(links: seq<nat>): (r: set<nat>)
    ensures |r| <= |links| && forall n :: n in r <==> n in links
  {
    if links == [] then {} else {links[0]} + Elements(links[1..])
  }

  lemma {:induction false} SettleEvolves(o: string, d: Doc, links: seq<nat>, token: nat)
    ensures Evolves(d, Settle(o, d, links, token), TOKEN_KEY, Elements(links))
  {
    hide Classify, Evolves, SetLinks, PutKey, IsName, Trimmed, Decimal, Elements;
    HeartbeatPairs(token);
    assert AllAwaited(HeartbeatValues(token), KNET_KEYS);
    var d' := PutKey(o, d, "token", Decimal(token));
    PutKeyEvolves(o, d, "token", Decimal(token), TOKEN_KEY, Elements(links));
    SetLinksEvolves(o, d', links, HeartbeatValues(token), TOKEN_KEY, Elements(links));
    EvolvesTrans(d, d', SetLinks(o, d', links, HeartbeatValues(token)), TOKEN_KEY, Elements(links));
  }

  // ----- how much changes ---------------------------------------------------------------

  /** How many lines of `d` have another text in `e`. */
  function Changed(d: Doc, e: Doc): nat
    decreases d
  {
    match d
    case End => 0
    case Row(l, r) => if e.Row? then (if e.line == l then 0 else 1) + Changed(r, e.rest) else 0
    case Block(_, b, _, r) => if e.Block? then Changed(b, e.body) + Changed(r, e.rest) else 0
  }

  lemma {:induction false} ChangedNothing(d: Doc)
    ensures Changed(d, d) == 0
    decreases d
  {
    match d {
      case End =>
      case Row(_, r) => ChangedNothing(r);
      case Block(_, b, _, r) =>
        ChangedNothing(b);
        ChangedNothing(r);
    }
  }

  /** At most one line per key and three per link are rewritten; at most one line per key and
      six per link are added. */
  lemma {:induction false} EvolvesBound(d: Doc, e: Doc, keys: set<string>, links: set<nat>)
    requires Evolves(d, e, keys, links)
    ensures Changed(d, e) <= |keys| + 3 * |links|
    ensures Size(e) <= Size(d) + |keys| + 6 * |links|
    decreases d
  {
    hide Classify, IndentOf, IsIface;
    match d {
      case End => FreshBound(e, keys, links);
      case Row(l, r) => EvolvesBound(r, e.rest, KeysAfter(l, keys), links);
      case Block(o, b, _, r) =>
        EvolvesBound(r, e.rest, keys, LinksAfter(o, b, links));
        FewerLinks(o, b, links);
        if Serves(o, b, links) {
          assert |KNET_KEYS| == 3;
          EvolvesBound(b, e.body, KNET_KEYS, {});
        } else {
          ChangedNothing(b);
        }
    }
  }

  lemma {:induction false} FreshBound(e: Doc, keys: set<string>, links: set<nat>)
    requires Fresh(e, keys, links)
    ensures Size(e) <= |keys| + 6 * |links|
    decreases e
  {
    hide Classify, IsIface;
    match e {
      case End =>
      case Row(l, r) => FreshBound(r, KeysAfter(l, keys), links);
      case Block(o, b, _, r) =>
        FreshBound(r, keys, LinksAfter(o, b, links));
        FewerLinks(o, b, links);
        assert |KNET_KEYS| == 3;
        FreshBound(b.rest, KNET_KEYS, {});
    }
  }

  lemma {:induction false} FewerLinks(o: string, b: Doc, links: set<nat>)
    ensures |LinksAfter(o, b, links)| + (if Serves(o, b, links) then 1 else 0) <= |links|
  {
    hide IsIface;
    var rest := LinksAfter(o, b, links);
    Fewer(rest, links);
    if n :| n in links && IsIface(o, b, n) {
      Fewer(rest, links - {n});
    }
  }

  lemma {:induction false} Fewer(a: set<nat>, b: set<nat>)
    requires a <= b
    ensures |a| <= |b|
    decreases |a|
  {
    if x :| x in a {
      Fewer(a - {x}, b - {x});
    }
  }

  /** The interface block found for a link that is not awaited stays as it is. */
  lemma {:induction false} OtherIfacesStay(d: Doc, e: Doc, keys: set<string>, links: set<nat>, n: nat)
    requires Evolves(d, e, keys, links) && n !in links
    ensures HasIface(e, n) == HasIface(d, n) && (HasIface(d, n) ==> Iface(e, n) == Iface(d, n))
    decreases d
  {
    hide Classify, IndentOf, Lookup;
    match d {
      case End => NoOtherIface(e, keys, links, n);
      case Row(l, r) => OtherIfacesStay(r, e.rest, KeysAfter(l, keys), links, n);
      case Block(o, b, _, r) =>
        OtherIfacesStay(r, e.rest, keys, LinksAfter(o, b, links), n);
        if Serves(o, b, links) {
          SameServes(o, b, e.body, links);
          var m :| m in links && IsIface(o, b, m);
          DecimalInjective(m, n);
        }
    }
  }

  lemma {:induction false} NoOtherIface(e: Doc, keys: set<string>, links: set<nat>, n: nat)
    requires Fresh(e, keys, links) && n !in links
    ensures !HasIface(e, n)
    decreases e
  {
    hide Classify, Lookup;
    match e {
      case End =>
      case Row(l, r) => NoOtherIface(r, KeysAfter(l, keys), links, n);
      case Block(o, b, _, r) =>
        NoOtherIface(r, keys, LinksAfter(o, b, links), n);
        var m :| m in links && IsIface(o, b, m);
        DecimalInjective(m, n);
    }
  }

  // ----- what that means for lines ------------------------------------------------------

  /** The lines of a list at which the mask is true. */
  function Select(lines: seq<string>, mask: seq<bool>): seq<string>
    requires |lines| == |mask|
  {
    if lines == [] then []
    else (if mask[0] then [lines[0]] else []) + Select(lines[1..], mask[1..])
  }

  lemma {:induction false} SelectAppend(a: seq<string>, m: seq<bool>, b: seq<string>, n: seq<bool>)
    requires |a| == |m| && |b| == |n|
    ensures Select(a + b, m + n) == Select(a, m) + Select(b, n)
    decreases |a|
  {
    if a == [] {
      assert a + b == b && m + n == n;
    } else {
      assert (a + b)[0] == a[0] && (m + n)[0] == m[0];
      assert (a + b)[1..] == a[1..] + b && (m + n)[1..] == m[1..] + n;
      SelectAppend(a[1..], m[1..], b, n);
    }
  }

  lemma {:induction false} SelectNone(lines: seq<string>, mask: seq<bool>)
    requires |lines| == |mask| && forall i :: 0 <= i < |mask| ==> !mask[i]
    ensures Select(lines, mask) == []
    decreases |lines|
  {
    if lines != [] {
      SelectNone(lines[1..], mask[1..]);
    }
  }

  function Nothing(n: nat): (m: seq<bool>)
    ensures |m| == n && forall i :: 0 <= i < n ==> !m[i]
  {
    if n == 0 then [] else [false] + Nothing(n - 1)
  }

  /** Which lines of `e` come from `d`; the others were added. */
  function Kept(d: Doc, e: Doc): seq<bool>
    decreases d
  {
    match d
    case End => Nothing(Size(e))
    case Row(_, r) => if e.Row? then [true] + Kept(r, e.rest) else []
    case Block(_, b, _, r) => if e.Block? then [true] + Kept(b, e.body) + [true] + Kept(r, e.rest) else []
  }

  /** How many lines differ between two lists of the same length. */
  function Differing(a: seq<string>, b: seq<string>): nat
    requires |a| == |b|
  {
    if a == [] then 0 else (if a[0] == b[0] then 0 else 1) + Differing(a[1..], b[1..])
  }

  lemma {:induction false} DifferingAppend(a: seq<string>, b: seq<string>, c: seq<string>, d: seq<string>)
    requires |a| == |b| && |c| == |d|
    ensures Differing(a + c, b + d) == Differing(a, b) + Differing(c, d)
    decreases |a|
  {
    if a == [] {
      assert a + c == c && b + d == d;
    } else {
      assert (a + c)[1..] == a[1..] + c && (b + d)[1..] == b[1..] + d;
      DifferingAppend(a[1..], b[1..], c, d);
    }
  }

  /** Same key, same indent. */
  ghost predicate SameSlot(l: string, m: string) {
    l == m || (Classify(l).Key? && Classify(m).Key? && Classify(m).key == Classify(l).key && IndentOf(m) == IndentOf(l))
  }

  ghost predicate SameSlots(a: seq<string>, b: seq<string>) {
    |a| == |b| && forall i :: 0 <= i < |a| ==> SameSlot(a[i], b[i])
  }

  /** The survivors of `d` among the lines of `e`. */
  ghost predicate Survive(d: Doc, e: Doc) {
    && |Kept(d, e)| == Size(e)
    && SameSlots(Flatten(d), Select(Flatten(e), Kept(d, e)))
    && Differing(Flatten(d), Select(Flatten(e), Kept(d, e))) == Changed(d, e)
  }

  lemma {:induction false} SurviveSelf(d: Doc)
    ensures Survive(d, d)
    decreases d
  {
    hide Classify;
    match d {
      case End =>
      case Row(l, r) =>
        SurviveSelf(r);
        SurviveRow(l, r, l, r);
      case Block(o, b, c, r) =>
        SurviveSelf(b);
        SurviveSelf(r);
        SurviveBlock(o, b, c, r, b, r);
    }
  }

  lemma {:induction false} SurviveRow(l: string, r: Doc, m: string, s: Doc)
    requires Survive(r, s) && SameSlot(l, m)
    ensures Survive(Row(l, r), Row(m, s))
  {
    hide SameSlot;
    var x := Select(Flatten(s), Kept(r, s));
    assert ([m] + Flatten(s))[1..] == Flatten(s) && ([true] + Kept(r, s))[1..] == Kept(r, s);
    assert Select(Flatten(Row(m, s)), Kept(Row(l, r), Row(m, s))) == [m] + x;
    assert ([l] + Flatten(r))[1..] == Flatten(r) && ([m] + x)[1..] == x;
  }

  lemma {:induction false} SurviveBlock(o: string, b: Doc, c: string, r: Doc, a: Doc, s: Doc)
    requires Survive(b, a) && Survive(r, s)
    ensures Survive(Block(o, b, c, r), Block(o, a, c, s))
  {
    hide SameSlot, Select, Differing;
    var x, y := Select(Flatten(a), Kept(b, a)), Select(Flatten(s), Kept(r, s));
    SelectOne(o);
    SelectOne(c);
    SelectAppend([o] + Flatten(a) + [c], [true] + Kept(b, a) + [true], Flatten(s), Kept(r, s));
    SelectAppend([o] + Flatten(a), [true] + Kept(b, a), [c], [true]);
    SelectAppend([o], [true], Flatten(a), Kept(b, a));
    assert Select(Flatten(Block(o, a, c, s)), Kept(Block(o, b, c, r), Block(o, a, c, s))) == [o] + x + [c] + y;
    DifferingAppend([o] + Flatten(b) + [c], [o] + x + [c], Flatten(r), y);
    DifferingAppend([o] + Flatten(b), [o] + x, [c], [c]);
    DifferingAppend([o], [o], Flatten(b), x);
    SlotsAppend([o] + Flatten(b) + [c], [o] + x + [c], Flatten(r), y);
    SlotsAppend([o] + Flatten(b), [o] + x, [c], [c]);
    SlotsAppend([o], [o], Flatten(b), x);
  }

  lemma {:induction false} SelectOne(l: string)
    ensures Select([l], [true]) == [l] && Differing([l], [l]) == 0 && SameSlots([l], [l])
  {
    hide Classify;
    assert Select([], []) == [] && [l][1..] == [] && [true][1..] == [];
    assert Differing([], []) == 0;
  }

  lemma {:induction false} SlotsAppend(a: seq<string>, b: seq<string>, c: seq<string>, d: seq<string>)
    requires |a| == |b|
    ensures SameSlots(a, b) && SameSlots(c, d) ==> SameSlots(a + c, b + d)
  {
    hide SameSlot;
  }

  /** Deleting the added lines gives back the old lines, with exactly the changed ones
      rewritten at the same indent and for the same key. */
  lemma {:induction false} EvolvesLines(d: Doc, e: Doc, keys: set<string>, links: set<nat>)
    requires Evolves(d, e, keys, links)
    ensures Survive(d, e)
    decreases d
  {
    hide Classify, NameOf, Survive, IndentOf, Serves, LinksAfter;
    match d {
      case End => SurviveEnd(e);
      case Row(l, r) =>
        EvolvesLines(r, e.rest, KeysAfter(l, keys), links);
        assert SameSlot(l, e.line);
        SurviveRow(l, r, e.line, e.rest);
      case Block(o, b, c, r) =>
        EvolvesLines(r, e.rest, keys, LinksAfter(o, b, links));
        if Serves(o, b, links) {
          EvolvesLines(b, e.body, KNET_KEYS, {});
        } else {
          SurviveSelf(b);
        }
        SurviveBlock(o, b, c, r, e.body, e.rest);
    }
  }

  lemma {:induction false} SurviveEnd(e: Doc)
    ensures Survive(End, e)
  {
    hide SameSlot;
    SelectNone(Flatten(e), Nothing(Size(e)));
  }

  /** Configuring changes nothing outside the totem body. Inside it only the first token line
      and the knet values of the first interface block of each heartbeat link may change, at
      most `1 + 3 * links` lines of them, and at most `1 + 6 * links` lines are added. */
  lemma {:induction false} OnlyHeartbeatLinesChange(d: Doc, token: nat)
    requires Editable(d)
    ensures Editable(Configure(d, token)) && Totem(Configure(d, token)).0 == Totem(d).0
    ensures var b, b' := Totem(d).1, Totem(Configure(d, token)).1;
            && Replaces(Flatten(d), Flatten(Configure(d, token)), TotemPos(d, 0, 0).0, Totem(d).0, Flatten(b), Flatten(b'))
            && Evolves(b, b', TOKEN_KEY, Elements(Links(d))) && Survive(b, b')
            && Changed(b, b') <= 1 + 3 * |Links(d)| && Size(b') <= Size(b) + 1 + 6 * |Links(d)|
  {
    hide Classify, Settle, Totem, WithTotem, TotemCount, Links, WellFormed, Configure, Evolves, Replaces,
         Changed, TotemPos, Survive, Elements, Flatten, Size;
    var (o, b) := Totem(d);
    ConfigureEffect(d, token);
    ConfigureIs(d, token);
    var b' := Settle(o, b, Links(d), token);
    WithTotemEffect(d, b');
    WithTotemLines(d, 0, 0, b');
    SettledFrame(o, b, Links(d), token);
  }

  lemma {:induction false} SettledFrame(o: string, b: Doc, links: seq<nat>, token: nat)
    ensures var b' := Settle(o, b, links, token);
            && Evolves(b, b', TOKEN_KEY, Elements(links)) && Survive(b, b')
            && Changed(b, b') <= 1 + 3 * |links| && Size(b') <= Size(b) + 1 + 6 * |links|
  {
    hide Settle, Evolves, Survive, Changed, Size, Elements;
    var b' := Settle(o, b, links, token);
    SettleEvolves(o, b, links, token);
    EvolvesLines(b, b', TOKEN_KEY, Elements(links));
    EvolvesBound(b, b', TOKEN_KEY, Elements(links));
    assert |TOKEN_KEY| == 1;
  }

  // ----- texts --------------------------------------------------------------------------

  /** No line of the tree holds a line break. */
  predicate Unbroken(d: Doc) {
    match d
    case End => true
    case Row(l, r) => BreakFree(l) && Unbroken(r)
    case Block(o, b, c, r) => BreakFree(o) && Unbroken(b) && BreakFree(c) && Unbroken(r)
  }

  lemma {:induction false} UnbrokenLines(d: Doc)
    ensures Unbroken(d) <==> AllBreakFree(Flatten(d))
    decreases d
  {
    hide BreakFree;
    match d {
      case End =>
      case Row(l, r) =>
        UnbrokenLines(r);
        BreakFreeAppend([l], Flatten(r));
      case Block(o, b, c, r) =>
        UnbrokenLines(b);
        UnbrokenLines(r);
        BreakFreeAppend([o] + Flatten(b) + [c], Flatten(r));
        BreakFreeAppend([o] + Flatten(b), [c]);
        BreakFreeAppend([o], Flatten(b));
    }
  }

  lemma {:induction false} BreakFreeAppend(a: seq<string>, b: seq<string>)
    ensures AllBreakFree(a + b) <==> AllBreakFree(a) && AllBreakFree(b)
    ensures forall l :: AllBreakFree([l]) <==> BreakFree(l)
  {
    hide BreakFree;
    var c := a + b;
    if AllBreakFree(c) {
      assert forall i :: 0 <= i < |a| ==> a[i] == c[i];
      assert forall i :: 0 <= i < |b| ==> b[i] == c[|a| + i];
    }
    forall l ensures AllBreakFree([l]) <==> BreakFree(l) {
      assert [l][0] == l;
    }
  }

  lemma {:induction false} NoBreakInName(s: string)
    requires IsName(s)
    ensures BreakFree(s)
  {
    forall i | 0 <= i < |s| ensures !IsBreak(s[i]) {
      assert IsNameChar(s[i]);
    }
  }

  lemma {:induction false} KeyLineUnbroken(indent: string, key: string, value: string)
    requires BreakFree(indent) && BreakFree(value) && IsName(key)
    ensures BreakFree(KeyLine(indent, key, value))
  {
    NoBreakInName(key);
    hide IsName;
    JoinUnbroken(indent, key);
    assert BreakFree(": ");
    JoinUnbroken(indent + key, ": ");
    JoinUnbroken(indent + key + ": ", value);
  }

  lemma {:induction false} JoinUnbroken(a: string, b: string)
    requires BreakFree(a) && BreakFree(b)
    ensures BreakFree(a + b)
  {
    hide IsBreak;
  }

  lemma {:induction false} SetRowUnbroken(d: Doc, key: string, value: string)
    requires Unbroken(d) && BreakFree(value) && IsName(key)
    ensures Unbroken(SetRow(d, key, value))
    decreases d
  {
    hide Classify, BreakFree, KeyLine, IsName, IndentOf;
    match d {
      case End =>
      case Row(l, r) =>
        IndentUnbroken(l);
        KeyLineUnbroken(IndentOf(l), key, value);
        SetRowUnbroken(r, key, value);
      case Block(_, _, _, r) => SetRowUnbroken(r, key, value);
    }
  }

  lemma {:induction false} IndentUnbroken(l: string)
    requires BreakFree(l)
    ensures BreakFree(IndentOf(l))
  {
    hide IsBreak;
    var n := SpanSpace(l);
    assert forall i :: 0 <= i < n ==> l[..n][i] == l[i];
  }

  lemma {:induction false} AppendUnbroken(d: Doc, e: Doc)
    requires Unbroken(d) && Unbroken(e)
    ensures Unbroken(Append(d, e))
    decreases d
  {
    hide BreakFree;
    match d {
      case End =>
      case Row(_, r) => AppendUnbroken(r, e);
      case Block(_, _, _, r) => AppendUnbroken(r, e);
    }
  }

  lemma {:induction false} ChildIndentUnbroken(o: string, d: Doc)
    requires BreakFree(o) && Unbroken(d)
    ensures BreakFree(ChildIndent(o, d))
  {
    hide BreakFree, IndentOf;
    match FirstText(d) {
      case Some(l) =>
        FirstTextUnbroken(d);
        IndentUnbroken(l);
      case None =>
        IndentUnbroken(o);
        StepUnbroken(IndentOf(o));
    }
  }

  lemma {:induction false} StepUnbroken(indent: string)
    requires BreakFree(indent)
    ensures BreakFree(indent + DEFAULT_INDENT)
  {
    assert BreakFree(DEFAULT_INDENT);
    JoinUnbroken(indent, DEFAULT_INDENT);
  }

  lemma {:induction false} FirstTextUnbroken(d: Doc)
    requires Unbroken(d) && FirstText(d).Some?
    ensures BreakFree(FirstText(d).value)
    decreases d
  {
    hide BreakFree, Strip;
    match d {
      case Row(l, r) =>
        if Strip(l) == "" {
          FirstTextUnbroken(r);
        }
      case Block(_, _, _, _) =>
    }
  }

  lemma {:induction false} PutKeyUnbroken(o: string, d: Doc, key: string, value: string)
    requires BreakFree(o) && Unbroken(d) && BreakFree(value) && IsName(key)
    ensures Unbroken(PutKey(o, d, key, value))
  {
    hide Classify, BreakFree, IsName, SetRow, Append, Lookup, ChildIndent, KeyLine;
    SetRowUnbroken(d, key, value);
    ChildIndentUnbroken(o, d);
    KeyLineUnbroken(ChildIndent(o, d), key, value);
    assert Unbroken(End);
    AppendUnbroken(d, Row(KeyLine(ChildIndent(o, d), key, value), End));
  }

  ghost predicate UnbrokenPairs(pairs: Pairs) {
    forall i :: 0 <= i < |pairs| ==> IsName(pairs[i].0) && BreakFree(pairs[i].1)
  }

  lemma {:induction false} PutAllUnbroken(o: string, d: Doc, pairs: Pairs)
    requires BreakFree(o) && Unbroken(d) && UnbrokenPairs(pairs)
    ensures Unbroken(PutAll(o, d, pairs))
    decreases |pairs|
  {
    hide BreakFree, IsName, PutKey, Unbroken;
    if pairs != [] {
      PutKeyUnbroken(o, d, pairs[0].0, pairs[0].1);
      PutAllUnbroken(o, PutKey(o, d, pairs[0].0, pairs[0].1), pairs[1..]);
    }
  }

  lemma {:induction false} SetIfaceUnbroken(d: Doc, link: nat, body: Doc)
    requires Unbroken(d) && Unbroken(body)
    ensures Unbroken(SetIface(d, link, body))
    ensures HasIface(d, link) ==> BreakFree(Iface(d, link).0) && Unbroken(Iface(d, link).1)
    decreases d
  {
    hide BreakFree, IsIface;
    match d {
      case End =>
      case Row(_, r) => SetIfaceUnbroken(r, link, body);
      case Block(_, _, _, r) => SetIfaceUnbroken(r, link, body);
    }
  }

  lemma {:induction false} NewIfaceUnbroken(indent: string, link: nat)
    requires BreakFree(indent)
    ensures Unbroken(NewIface(indent, link))
  {
    DecimalTrimmed(link);
    NoBreakInName(Decimal(link));
    assert IsName("linknumber");
    StepUnbroken(indent);
    KeyLineUnbroken(indent + DEFAULT_INDENT, "linknumber", Decimal(link));
    assert BreakFree("interface") && BreakFree(" {") && BreakFree("}");
    JoinUnbroken(indent, "interface");
    JoinUnbroken(indent + "interface", " {");
    JoinUnbroken(indent, "}");
    hide BreakFree, IsName, KeyLine, Decimal;
    assert Unbroken(End);
    assert Unbroken(Row(KeyLine(indent + DEFAULT_INDENT, "linknumber", Decimal(link)), End));
  }

  lemma {:induction false} SetLinksUnbroken(o: string, d: Doc, links: seq<nat>, pairs: Pairs)
    requires BreakFree(o) && Unbroken(d) && UnbrokenPairs(pairs)
    ensures Unbroken(SetLinks(o, d, links, pairs))
    decreases |links|
  {
    hide BreakFree, Unbroken, UnbrokenPairs, HasIface, Iface, SetIface, Append, NewIface, PutAll, ChildIndent;
    if links != [] {
      var link := links[0];
      ChildIndentUnbroken(o, d);
      NewIfaceUnbroken(ChildIndent(o, d), link);
      AppendUnbroken(d, NewIface(ChildIndent(o, d), link));
      var d' := EnsureIface(o, d, link);
      assert Unbroken(d');
      SetIfaceUnbroken(d', link, d);
      if HasIface(d', link) {
        var (io, ib) := Iface(d', link);
        PutAllUnbroken(io, ib, pairs);
        SetIfaceUnbroken(d', link, PutAll(io, ib, pairs));
      }
      SetLinksUnbroken(o, SetLink(o, d, link, pairs), links[1..], pairs);
    }
  }

  lemma {:induction false} SettleUnbroken(o: string, d: Doc, links: seq<nat>, token: nat)
    requires BreakFree(o) && Unbroken(d)
    ensures Unbroken(Settle(o, d, links, token))
  {
    HeartbeatPairs(token);
    NumberUnbroken(token);
    NumberUnbroken(token / 2);
    NumberUnbroken(token / 20);
    assert BreakFree("2");
    hide BreakFree, Unbroken, SetLinks, PutKey, IsName, Decimal, Trimmed;
    assert UnbrokenPairs(HeartbeatValues(token));
    PutKeyUnbroken(o, d, "token", Decimal(token));
    SetLinksUnbroken(o, PutKey(o, d, "token", Decimal(token)), links, HeartbeatValues(token));
  }

  lemma {:induction false} NumberUnbroken(n: nat)
    ensures BreakFree(Decimal(n))
  {
    DecimalTrimmed(n);
    NoBreakInName(Decimal(n));
  }

  lemma {:induction false} WithTotemUnbroken(d: Doc, body: Doc)
    requires Unbroken(d) && Unbroken(body)
    ensures Unbroken(WithTotem(d, body))
    ensures TotemCount(d) > 0 ==> BreakFree(Totem(d).0) && Unbroken(Totem(d).1)
    decreases d
  {
    hide BreakFree, NameOf;
    match d {
      case End =>
      case Row(_, r) => WithTotemUnbroken(r, body);
      case Block(_, _, _, r) => WithTotemUnbroken(r, body);
    }
  }

  /** The written text reads back as the configured tree. */
  lemma {:induction false} ReadsBack(d: Doc, token: nat)
    requires Editable(d) && AllBreakFree(Flatten(d))
    ensures Editable(Configure(d, token))
    ensures var lines := SplitLines(Render(Flatten(Configure(d, token))));
            lines == Flatten(Configure(d, token)) && TreeOf(lines) == Some(Configure(d, token))
  {
    hide Classify, Settle, Totem, WithTotem, TotemCount, Links, WellFormed, Configure, Unbroken, AllBreakFree,
         SplitLines, Render, TreeOf, Flatten;
    UnbrokenLines(d);
    ConfigureEffect(d, token);
    ConfigureIs(d, token);
    WithTotemUnbroken(d, d);
    SettleUnbroken(Totem(d).0, Totem(d).1, Links(d), token);
    WithTotemUnbroken(d, Settle(Totem(d).0, Totem(d).1, Links(d), token));
    var e := Configure(d, token);
    UnbrokenLines(e);
    SomeLine(e);
    SplitRender(Flatten(e));
    TreeRoundTrip(e);
  }

  lemma {:induction false} SomeLine(e: Doc)
    requires TotemCount(e) > 0
    ensures |Flatten(e)| > 0
  {
    hide NameOf;
  }

  /** The tree of a text that was configured. */
  lemma {:induction false} ConfiguredTree(text: string, token: int)
    requires Configured(text, token).Ok?
    ensures TOKEN_MIN <= token <= TOKEN_MAX && TreeOf(SplitLines(text)).Some?
    ensures var d := TreeOf(SplitLines(text)).value;
            && Editable(d) && AllBreakFree(Flatten(d)) && Configured(text, token).value == Render(Flatten(Configure(d, token)))
  {
    hide Classify, Configure, SplitLines, Render, Flatten, TotemCount, WellFormed, AllBreakFree, Scan;
    TreeLines(SplitLines(text));
  }

  /** The settings the IBM procedure asks for: the token, and for every link a first
      matching interface block with the derived values. */
  ghost predicate InPlace(b: Doc, links: seq<nat>, token: nat) {
    var pairs := HeartbeatValues(token);
    && Lookup(b, "token") == Some(Decimal(token))
    && (forall i :: 0 <= i < |links| ==> HasIface(b, links[i]))
    && (forall i, j :: 0 <= i < |links| && 0 <= j < |pairs| ==>
          Lookup(Iface(b, links[i]).1, pairs[j].0) == Some(pairs[j].1))
  }

  /** A totem body misses no edit exactly when the settings are in place. */
  lemma {:induction false} NothingMissing(b: Doc, links: seq<nat>, token: nat)
    ensures Todo(b, links, token) == 0 <==> InPlace(b, links, token)
  {
    hide Classify, HeartbeatValues, Lookup, HasIface, Iface, Decimal, LinksTodo, WrongKeys;
    var pairs := HeartbeatValues(token);
    if LinksTodo(b, links, pairs) == 0 {
      forall i | 0 <= i < |links| ensures HasIface(b, links[i]) {
        NothingLeft(b, links, pairs, i);
      }
      forall i, j | 0 <= i < |links| && 0 <= j < |pairs|
        ensures Lookup(Iface(b, links[i]).1, pairs[j].0) == Some(pairs[j].1)
      {
        NothingLeft(b, links, pairs, i);
        NoWrongKey(Iface(b, links[i]).1, pairs, j);
      }
    }
    if InPlace(b, links, token) {
      forall i | 0 <= i < |links| ensures WrongKeys(Iface(b, links[i]).1, pairs) == 0 {
        AllRight(Iface(b, links[i]).1, pairs);
      }
      AllLinksDone(b, links, pairs);
    }
  }

  lemma {:induction false} AllRight(d: Doc, pairs: Pairs)
    requires forall j :: 0 <= j < |pairs| ==> Lookup(d, pairs[j].0) == Some(pairs[j].1)
    ensures WrongKeys(d, pairs) == 0
    decreases |pairs|
  {
    hide Lookup;
    if pairs != [] {
      AllRight(d, pairs[1..]);
    }
  }

  lemma {:induction false} AllLinksDone(d: Doc, links: seq<nat>, pairs: Pairs)
    requires forall i :: 0 <= i < |links| ==> HasIface(d, links[i]) && WrongKeys(Iface(d, links[i]).1, pairs) == 0
    ensures LinksTodo(d, links, pairs) == 0
    decreases |links|
  {
    hide HasIface, Iface, WrongKeys;
    if links != [] {
      AllLinksDone(d, links[1..], pairs);
    }
  }

  /** After configuring, the file parses, has one totem section, names the links it named
      before, and has all the settings in place. */
  lemma {:induction false} HeartbeatInPlace(text: string, token: int)
    requires Configured(text, token).Ok?
    ensures TreeOf(SplitLines(text)).Some? && token >= 0
    ensures var out := SplitLines(Configured(text, token).value);
            && TreeOf(out).Some?
            && var d, e := TreeOf(SplitLines(text)).value, TreeOf(out).value;
            Editable(e) && Links(e) == Links(d) && InPlace(Totem(e).1, Links(d), token)
  {
    hide Classify, Configure, SplitLines, Render, Flatten, TotemCount, WellFormed, AllBreakFree, TreeOf, Totem,
         Links, Todo,
         InPlace, Configured;
    ConfiguredTree(text, token);
    var d := TreeOf(SplitLines(text)).value;
    ReadsBack(d, token);
    ConfigureEffect(d, token);
    NothingMissing(Totem(Configure(d, token)).1, Links(d), token);
  }

  lemma {:induction false} NothingLeft(d: Doc, links: seq<nat>, pairs: Pairs, i: nat)
    requires LinksTodo(d, links, pairs) == 0 && i < |links|
    ensures HasIface(d, links[i]) && WrongKeys(Iface(d, links[i]).1, pairs) == 0
    decreases |links|
  {
    hide HasIface, Iface, WrongKeys;
    if i > 0 {
      NothingLeft(d, links[1..], pairs, i - 1);
    }
  }

  lemma {:induction false} NoWrongKey(d: Doc, pairs: Pairs, j: nat)
    requires WrongKeys(d, pairs) == 0 && j < |pairs|
    ensures Lookup(d, pairs[j].0) == Some(pairs[j].1)
    decreases |pairs|
  {
    hide Lookup;
    if j > 0 {
      NoWrongKey(d, pairs[1..], j - 1);
    }
  }

  /** A second run on an edited text changes nothing, byte for byte. */
  lemma {:induction false} ConfiguredTwice(text: string, token: int)
    requires Configured(text, token).Ok?
    ensures Configured(Configured(text, token).value, token) == Configured(text, token)
  {
    hide Classify, Configure, SplitLines, Render, Flatten, TotemCount, WellFormed, AllBreakFree, TreeOf, Scan;
    ConfiguredTree(text, token);
    var d := TreeOf(SplitLines(text)).value;
    ReadsBack(d, token);
    ConfigureEffect(d, token);
    ScanMatchesTree(SplitLines(Configured(text, token).value));
  }

  /** Two lists of lines that the parser reads alike. */
  ghost predicate ReadAlike(a: seq<string>, b: seq<string>) {
    |a| == |b| && forall i :: 0 <= i < |a| ==> Classify(a[i]) == Classify(b[i])
  }

  lemma {:induction false} SameReadAlike(d: Doc, e: Doc)
    requires Same(d, e)
    ensures ReadAlike(Flatten(d), Flatten(e))
    decreases d
  {
    hide Classify, ReadAlike, Flatten;
    match d {
      case End => NothingReadAlike(e);
      case Row(l, r) =>
        SameReadAlike(r, e.rest);
        RowLines(l, r);
        RowLines(e.line, e.rest);
        LineReadAlike(l, e.line);
        JoinReadAlike([l], [e.line], Flatten(r), Flatten(e.rest));
      case Block(o, b, c, r) =>
        SameReadAlike(b, e.body);
        SameReadAlike(r, e.rest);
        BlockLines(o, b, c, r);
        BlockLines(e.open, e.body, e.close, e.rest);
        LineReadAlike(o, e.open);
        LineReadAlike(c, e.close);
        JoinReadAlike([o], [e.open], Flatten(b), Flatten(e.body));
        JoinReadAlike([o] + Flatten(b), [e.open] + Flatten(e.body), [c], [e.close]);
        JoinReadAlike([o] + Flatten(b) + [c], [e.open] + Flatten(e.body) + [e.close], Flatten(r), Flatten(e.rest));
    }
  }

  lemma {:induction false} NothingReadAlike(e: Doc)
    requires e == End
    ensures ReadAlike(Flatten(End), Flatten(e))
  {
    hide Classify;
  }

  lemma {:induction false} LineReadAlike(l: string, m: string)
    requires Classify(l) == Classify(m)
    ensures ReadAlike([l], [m])
  {
    hide Classify;
  }

  lemma {:induction false} JoinReadAlike(a: seq<string>, b: seq<string>, c: seq<string>, d: seq<string>)
    requires ReadAlike(a, b) && ReadAlike(c, d)
    ensures ReadAlike(a + c, b + d)
  {
    hide Classify;
  }

  /** Configuring a text for one token and then for another reads, line by line, like
      configuring it for the other alone. */
  lemma {:induction false} LastTokenWinsOnTexts(text: string, k1: int, k2: int)
    requires Configured(text, k1).Ok? && TOKEN_MIN <= k2 <= TOKEN_MAX
    ensures Configured(Configured(text, k1).value, k2).Ok? && Configured(text, k2).Ok?
    ensures ReadAlike(SplitLines(Configured(Configured(text, k1).value, k2).value), SplitLines(Configured(text, k2).value))
  {
    hide Classify, Configure, SplitLines, Render, Flatten, TotemCount, WellFormed, AllBreakFree, TreeOf, Scan,
         Same, ReadAlike;
    ConfiguredTree(text, k1);
    var d := TreeOf(SplitLines(text)).value;
    ReadsBack(d, k1);
    ReadsBack(d, k2);
    var e := Configure(d, k1);
    ScanMatchesTree(SplitLines(Configured(text, k1).value));
    ScanMatchesTree(SplitLines(text));
    assert AllBreakFree(Flatten(e));
    ReadsBack(e, k2);
    LastTokenWins(d, k1, k2);
    SameReadAlike(Configure(e, k2), Configure(d, k2));
  }
}
