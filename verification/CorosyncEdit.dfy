/** The heartbeat edits on the tree of a corosync.conf: one edit per pass, the settled form
    all passes lead to, and the number of edits still missing. */
module CorosyncEdit {
  import opened Wrappers
  import opened Text
  import opened CorosyncSyntax
  import opened CorosyncTree

  const DEFAULT_INDENT := "    "

  type Pairs = seq<(string, string)>

  /** The interface values IBM derives from the token, in the order they are written. */
  function HeartbeatValues(token: nat): Pairs {
    [("knet_ping_timeout", Decimal(token / 2)), ("knet_ping_interval", Decimal(token / 20)), ("knet_pong_count", "2")]
  }

  /** Pairs that can be written: names with trimmed values, no key twice. */
  ghost predicate Writable(pairs: Pairs) {
    && (forall i :: 0 <= i < |pairs| ==> IsName(pairs[i].0) && Trimmed(pairs[i].1))
    && (forall i, j :: 0 <= i < j < |pairs| ==> pairs[i].0 != pairs[j].0)
  }

  // ----- direct keys of a body ----------------------------------------------------------

  /** The effective value of a direct key: its first occurrence. */
  function Lookup(d: Doc, key: string): Option<string> {
    match d
    case End => None
    case Row(l, rest) =>
      (match Classify(l)
       case Key(k, v) => if k == key then Some(v) else Lookup(rest, key)
       case _ => Lookup(rest, key))
    case Block(_, _, _, rest) => Lookup(rest, key)
  }

  /** Rewrites the first line of `key`, keeping its indent. */
  function SetRow(d: Doc, key: string, value: string): Doc {
    match d
    case End => End
    case Row(l, rest) =>
      if Classify(l).Key? && Classify(l).key == key then Row(KeyLine(IndentOf(l), key, value), rest)
      else Row(l, SetRow(rest, key, value))
    case Block(o, b, c, rest) => Block(o, b, c, SetRow(rest, key, value))
  }

  function Append(d: Doc, e: Doc): Doc {
    match d
    case End => e
    case Row(l, rest) => Row(l, Append(rest, e))
    case Block(o, b, c, rest) => Block(o, b, c, Append(rest, e))
  }

  /** The first line of a body that is not blank. */
  function FirstText(d: Doc): Option<string> {
    match d
    case End => None
    case Row(l, rest) => if Strip(l) != "" then Some(l) else FirstText(rest)
    case Block(o, _, _, _) => Some(o)
  }

  /** How a new line of this section is indented: like the first line in it that is not blank,
      else one step deeper than the section. */
  function ChildIndent(open: string, d: Doc): (r: string)
    ensures AllSpace(r)
  {
    match FirstText(d)
    case Some(l) => IndentOf(l)
    case None => IndentOf(open) + DEFAULT_INDENT
  }

  function PutKey(open: string, d: Doc, key: string, value: string): Doc {
    match Lookup(d, key)
    case Some(v) => if v == value then d else SetRow(d, key, value)
    case None => Append(d, Row(KeyLine(ChildIndent(open, d), key, value), End))
  }

  function PutAll(open: string, d: Doc, pairs: Pairs): Doc
    decreases |pairs|
  {
    if pairs == [] then d else PutAll(open, PutKey(open, d, pairs[0].0, pairs[0].1), pairs[1..])
  }

  /** The first of `pairs` that is missing or different, put in place. */
  function NextKeys(open: string, d: Doc, pairs: Pairs): Option<Doc> {
    if pairs == [] then None
    else if Lookup(d, pairs[0].0) == Some(pairs[0].1) then NextKeys(open, d, pairs[1..])
    else Some(PutKey(open, d, pairs[0].0, pairs[0].1))
  }

  function WrongKeys(d: Doc, pairs: Pairs): nat {
    if pairs == [] then 0
    else (if Lookup(d, pairs[0].0) == Some(pairs[0].1) then 0 else 1) + WrongKeys(d, pairs[1..])
  }

  // ----- interface blocks ---------------------------------------------------------------

  /** The link an interface block is for; an omitted linknumber means link 0. */
  function IfaceNumber(body: Doc): string {
    match Lookup(body, "linknumber")
    case Some(v) => v
    case None => "0"
  }

  predicate IsIface(open: string, body: Doc, link: nat) {
    Classify(open) == Open("interface") && IfaceNumber(body) == Decimal(link)
  }

  predicate HasIface(d: Doc, link: nat) {
    match d
    case End => false
    case Row(_, rest) => HasIface(rest, link)
    case Block(o, b, _, rest) => IsIface(o, b, link) || HasIface(rest, link)
  }

  /** The opening line and the body of the first interface block of `link`. */
  function Iface(d: Doc, link: nat): (string, Doc)
    requires HasIface(d, link)
  {
    match d
    case Row(_, rest) => Iface(rest, link)
    case Block(o, b, _, rest) => if IsIface(o, b, link) then (o, b) else Iface(rest, link)
  }

  function SetIface(d: Doc, link: nat, body: Doc): Doc {
    match d
    case End => End
    case Row(l, rest) => Row(l, SetIface(rest, link, body))
    case Block(o, b, c, rest) =>
      if IsIface(o, b, link) then Block(o, body, c, rest) else Block(o, b, c, SetIface(rest, link, body))
  }

  function NewIface(indent: string, link: nat): Doc {
    Block(OpenLine(indent, "interface"),
          Row(KeyLine(indent + DEFAULT_INDENT, "linknumber", Decimal(link)), End), CloseLine(indent), End)
  }

  function EnsureIface(open: string, d: Doc, link: nat): Doc {
    if HasIface(d, link) then d else Append(d, NewIface(ChildIndent(open, d), link))
  }

  /** The body with a complete interface block for `link`. */
  function SetLink(open: string, d: Doc, link: nat, pairs: Pairs): Doc {
    var d' := EnsureIface(open, d, link);
    if HasIface(d', link) then
      var (io, ib) := Iface(d', link);
      SetIface(d', link, PutAll(io, ib, pairs))
    else d'
  }

  function SetLinks(open: string, d: Doc, links: seq<nat>, pairs: Pairs): Doc
    decreases |links|
  {
    if links == [] then d else SetLinks(open, SetLink(open, d, links[0], pairs), links[1..], pairs)
  }

  /** The settled totem body: the token, then every link in turn. */
  function Settle(open: string, d: Doc, links: seq<nat>, token: nat): Doc {
    SetLinks(open, PutKey(open, d, "token", Decimal(token)), links, HeartbeatValues(token))
  }

  // ----- one edit -----------------------------------------------------------------------

  function NextLink(open: string, d: Doc, link: nat, pairs: Pairs): Option<Doc> {
    if !HasIface(d, link) then Some(Append(d, NewIface(ChildIndent(open, d), link)))
    else
      var (io, ib) := Iface(d, link);
      match NextKeys(io, ib, pairs)
      case None => None
      case Some(b) => Some(SetIface(d, link, b))
  }

  function NextLinks(open: string, d: Doc, links: seq<nat>, pairs: Pairs): Option<Doc> {
    if links == [] then None
    else
      match NextLink(open, d, links[0], pairs)
      case Some(e) => Some(e)
      case None => NextLinks(open, d, links[1..], pairs)
  }

  /** The first missing edit of a totem body; None when nothing is missing. */
  function Next(open: string, d: Doc, links: seq<nat>, token: nat): Option<Doc> {
    if Lookup(d, "token") != Some(Decimal(token)) then Some(PutKey(open, d, "token", Decimal(token)))
    else NextLinks(open, d, links, HeartbeatValues(token))
  }

  /** The edits one link still needs: a block and all its keys, or its wrong keys. */
  function LinkTodo(d: Doc, link: nat, pairs: Pairs): nat {
    if HasIface(d, link) then WrongKeys(Iface(d, link).1, pairs) else 1 + |pairs|
  }

  function LinksTodo(d: Doc, links: seq<nat>, pairs: Pairs): nat {
    if links == [] then 0 else LinkTodo(d, links[0], pairs) + LinksTodo(d, links[1..], pairs)
  }

  /** The edits a totem body still needs. */
  function Todo(d: Doc, links: seq<nat>, token: nat): nat {
    (if Lookup(d, "token") == Some(Decimal(token)) then 0 else 1) + LinksTodo(d, links, HeartbeatValues(token))
  }

  // ----- how the edits act on keys and blocks -------------------------------------------

  /** Two bodies with the same interface blocks. */
  ghost predicate SameIfaces(d: Doc, e: Doc) {
    && (forall n: nat :: HasIface(d, n) == HasIface(e, n))
    && (forall n: nat :: HasIface(d, n) ==> Iface(d, n) == Iface(e, n))
  }

  lemma {:induction false} SetRowEffect(d: Doc, key: string, value: string)
    requires WellFormed(d) && Lookup(d, key).Some? && IsName(key) && Trimmed(value)
    ensures WellFormed(SetRow(d, key, value)) && Lookup(SetRow(d, key, value), key) == Some(value)
    ensures forall k :: k != key ==> Lookup(SetRow(d, key, value), k) == Lookup(d, k)
    ensures SameIfaces(SetRow(d, key, value), d)
    decreases d
  {
    hide Classify, IsIface;
    match d {
      case End =>
      case Row(l, rest) =>
        KeyLineRead(IndentOf(l), key, value);
        if Classify(l).Key? && Classify(l).key == key {
        } else {
          SetRowEffect(rest, key, value);
          var e := SetRow(rest, key, value);
          forall n: nat ensures HasIface(Row(l, e), n) == HasIface(d, n) {
            assert HasIface(e, n) == HasIface(rest, n);
          }
          forall n: nat | HasIface(d, n) ensures Iface(Row(l, e), n) == Iface(d, n) {
            assert HasIface(rest, n);
          }
        }
      case Block(o, b, c, rest) =>
        SetRowEffect(rest, key, value);
        var e := SetRow(rest, key, value);
        forall n: nat ensures HasIface(Block(o, b, c, e), n) == HasIface(d, n) {
          assert HasIface(e, n) == HasIface(rest, n);
        }
        forall n: nat | HasIface(d, n) ensures Iface(Block(o, b, c, e), n) == Iface(d, n) {
          assert IsIface(o, b, n) || HasIface(rest, n);
        }
    }
  }

  lemma {:induction false} AppendEffect(d: Doc, e: Doc)
    ensures WellFormed(d) && WellFormed(e) ==> WellFormed(Append(d, e))
    ensures forall k :: Lookup(Append(d, e), k) == if Lookup(d, k).Some? then Lookup(d, k) else Lookup(e, k)
    ensures forall n: nat :: HasIface(Append(d, e), n) == (HasIface(d, n) || HasIface(e, n))
    ensures forall n: nat :: HasIface(d, n) ==> Iface(Append(d, e), n) == Iface(d, n)
    ensures forall n: nat :: !HasIface(d, n) && HasIface(e, n) ==> Iface(Append(d, e), n) == Iface(e, n)
    decreases d
  {
    hide Classify, IsIface;
    match d {
      case End =>
      case Row(_, rest) => AppendEffect(rest, e);
      case Block(_, _, _, rest) => AppendEffect(rest, e);
    }
  }

  lemma {:induction false} OneRow(line: string, key: string, value: string)
    requires Classify(line) == Key(key, value)
    ensures WellFormed(Row(line, End)) && Lookup(Row(line, End), key) == Some(value)
    ensures forall k :: k != key ==> Lookup(Row(line, End), k).None?
    ensures forall n: nat :: !HasIface(Row(line, End), n)
  {
    hide Classify, IsIface;
    assert WellFormed(End);
    assert forall k :: Lookup(End, k).None?;
  }

  lemma {:induction false} PutKeyEffect(open: string, d: Doc, key: string, value: string)
    requires WellFormed(d) && IsName(key) && Trimmed(value)
    ensures WellFormed(PutKey(open, d, key, value)) && Lookup(PutKey(open, d, key, value), key) == Some(value)
    ensures forall k :: k != key ==> Lookup(PutKey(open, d, key, value), k) == Lookup(d, k)
    ensures SameIfaces(PutKey(open, d, key, value), d)
    ensures Lookup(d, key) == Some(value) ==> PutKey(open, d, key, value) == d
  {
    hide Classify, IsIface;
    match Lookup(d, key) {
      case Some(_) => SetRowEffect(d, key, value);
      case None =>
        var line := KeyLine(ChildIndent(open, d), key, value);
        KeyLineRead(ChildIndent(open, d), key, value);
        var row := Row(line, End);
        OneRow(line, key, value);
        AppendEffect(d, row);
    }
  }

  /** One key edit makes exactly one wrong key right and leads to the same settled body. */
  lemma {:induction false} NextKeysEffect(open: string, d: Doc, pairs: Pairs)
    requires WellFormed(d) && Writable(pairs)
    ensures NextKeys(open, d, pairs).None? <==> WrongKeys(d, pairs) == 0
    ensures NextKeys(open, d, pairs).None? ==> PutAll(open, d, pairs) == d
    ensures NextKeys(open, d, pairs).Some? ==>
              var e := NextKeys(open, d, pairs).value;
              && WellFormed(e) && WrongKeys(e, pairs) + 1 == WrongKeys(d, pairs)
              && PutAll(open, e, pairs) == PutAll(open, d, pairs)
              && (forall k :: (forall i :: 0 <= i < |pairs| ==> pairs[i].0 != k) ==> Lookup(e, k) == Lookup(d, k))
              && SameIfaces(e, d)
    decreases |pairs|
  {
    hide Classify, IsIface;
    if pairs != [] {
      var (k, v) := pairs[0];
      PutKeyEffect(open, d, k, v);
      if Lookup(d, k) == Some(v) {
        NextKeysEffect(open, d, pairs[1..]);
        if NextKeys(open, d, pairs[1..]).Some? {
          var e := NextKeys(open, d, pairs[1..]).value;
          assert forall i :: 0 <= i < |pairs[1..]| ==> pairs[1..][i].0 != k;
          assert Lookup(e, k) == Lookup(d, k);
          PutKeyEffect(open, e, k, v);
          forall x | forall i :: 0 <= i < |pairs| ==> pairs[i].0 != x
            ensures Lookup(e, x) == Lookup(d, x)
          {
            assert forall i :: 0 <= i < |pairs[1..]| ==> pairs[1..][i].0 != x;
          }
        }
      } else {
        var e := PutKey(open, d, k, v);
        SameWrongKeys(d, e, pairs[1..], k);
        PutKeyEffect(open, e, k, v);
      }
    }
  }

  lemma {:induction false} SameWrongKeys(d: Doc, e: Doc, pairs: Pairs, key: string)
    requires forall k :: k != key ==> Lookup(e, k) == Lookup(d, k)
    requires forall i :: 0 <= i < |pairs| ==> pairs[i].0 != key
    ensures WrongKeys(e, pairs) == WrongKeys(d, pairs)
    decreases |pairs|
  {
    hide Lookup;
    if pairs != [] {
      SameWrongKeys(d, e, pairs[1..], key);
    }
  }

  /** Replacing the body of an interface block by one with the same number disturbs nothing else. */
  lemma {:induction false} SetIfaceEffect(d: Doc, link: nat, body: Doc)
    requires HasIface(d, link) && IfaceNumber(body) == IfaceNumber(Iface(d, link).1)
    ensures WellFormed(d) && WellFormed(body) ==> WellFormed(SetIface(d, link, body))
    ensures forall k :: Lookup(SetIface(d, link, body), k) == Lookup(d, k)
    ensures forall n: nat :: HasIface(SetIface(d, link, body), n) == HasIface(d, n)
    ensures Iface(SetIface(d, link, body), link) == (Iface(d, link).0, body)
    ensures forall n: nat :: n != link && HasIface(d, n) ==> Iface(SetIface(d, link, body), n) == Iface(d, n)
    decreases d
  {
    hide Classify, IfaceNumber, Decimal;
    match d {
      case Row(_, rest) => SetIfaceEffect(rest, link, body);
      case Block(o, b, c, rest) =>
        if IsIface(o, b, link) {
          forall n: nat ensures IsIface(o, b, n) <==> n == link {
            DecimalInjective(n, link);
          }
        } else {
          SetIfaceEffect(rest, link, body);
        }
    }
  }

  lemma {:induction false} SetIfaceTwice(d: Doc, link: nat, x: Doc, y: Doc)
    requires HasIface(d, link) && IfaceNumber(x) == IfaceNumber(Iface(d, link).1)
    ensures SetIface(SetIface(d, link, x), link, y) == SetIface(d, link, y)
    ensures SetIface(d, link, Iface(d, link).1) == d
    decreases d
  {
    hide Classify, IfaceNumber, Decimal;
    match d {
      case Row(_, rest) => SetIfaceTwice(rest, link, x, y);
      case Block(o, b, c, rest) =>
        if !IsIface(o, b, link) {
          SetIfaceTwice(rest, link, x, y);
        }
    }
  }

  lemma {:induction false} NewIfaceEffect(indent: string, link: nat)
    requires AllSpace(indent)
    ensures WellFormed(NewIface(indent, link))
    ensures forall n: nat :: HasIface(NewIface(indent, link), n) <==> n == link
    ensures forall k :: Lookup(NewIface(indent, link), k).None?
    ensures forall k :: k != "linknumber" ==> Lookup(Iface(NewIface(indent, link), link).1, k).None?
  {
    NewIfaceLines(indent, link);
    hide Classify, Decimal, KeyLine, OpenLine, CloseLine;
    var o, row := OpenLine(indent, "interface"), KeyLine(indent + DEFAULT_INDENT, "linknumber", Decimal(link));
    NewIfaceReads(o, row, CloseLine(indent), link);
  }

  lemma {:induction false} NewIfaceReads(o: string, row: string, c: string, link: nat)
    requires Classify(o) == Open("interface") && Classify(c) == Close
    requires Classify(row) == Key("linknumber", Decimal(link))
    ensures var d := Block(o, Row(row, End), c, End);
            && WellFormed(d) && (forall n: nat :: HasIface(d, n) <==> n == link)
            && (forall k :: Lookup(d, k).None?)
            && (forall k :: k != "linknumber" ==> Lookup(Iface(d, link).1, k).None?)
  {
    hide Classify, Decimal;
    var body := Row(row, End);
    assert IfaceNumber(body) == Decimal(link);
    assert WellFormed(End) && WellFormed(body);
    forall n: nat ensures HasIface(Block(o, body, c, End), n) <==> n == link {
      DecimalInjective(n, link);
    }
    assert Iface(Block(o, body, c, End), link).1 == body;
  }

  lemma {:induction false} NewIfaceLines(indent: string, link: nat)
    requires AllSpace(indent)
    ensures Classify(OpenLine(indent, "interface")) == Open("interface") && Classify(CloseLine(indent)) == Close
    ensures Classify(KeyLine(indent + DEFAULT_INDENT, "linknumber", Decimal(link))) == Key("linknumber", Decimal(link))
  {
    assert IsName("interface") && IsName("linknumber") && AllSpace(indent + DEFAULT_INDENT);
    DecimalTrimmed(link);
    hide Classify, Decimal, KeyLine, OpenLine, CloseLine, IsName, AllSpace, Trimmed;
    OpenLineRead(indent, "interface");
    CloseLineRead(indent);
    KeyLineRead(indent + DEFAULT_INDENT, "linknumber", Decimal(link));
  }

  // ----- one link -----------------------------------------------------------------------

  /** Pairs an interface block may be given: writable, and never its link number. */
  ghost predicate LinkPairs(pairs: Pairs) {
    Writable(pairs) && forall i :: 0 <= i < |pairs| ==> pairs[i].0 != "linknumber"
  }

  lemma {:induction false} WrongKeysAll(d: Doc, pairs: Pairs)
    requires forall i :: 0 <= i < |pairs| ==> Lookup(d, pairs[i].0).None?
    ensures WrongKeys(d, pairs) == |pairs|
    decreases |pairs|
  {
    hide Lookup;
    if pairs != [] {
      assert forall i :: 0 <= i < |pairs[1..]| ==> pairs[1..][i] == pairs[i + 1];
      WrongKeysAll(d, pairs[1..]);
    }
  }

  /** A body in which only the interface of `link` may differ. */
  ghost predicate OnlyLink(d: Doc, e: Doc, link: nat) {
    && (forall k :: Lookup(e, k) == Lookup(d, k))
    && (forall n: nat :: n != link ==> HasIface(e, n) == HasIface(d, n))
    && (forall n: nat :: n != link && HasIface(d, n) ==> Iface(e, n) == Iface(d, n))
  }

  /** One edit for a link lowers what that link needs by exactly one, touches no other link
      and no direct key, and leads to the same complete interface. */
  lemma {:induction false} NextLinkEffect(open: string, d: Doc, link: nat, pairs: Pairs)
    requires WellFormed(d) && LinkPairs(pairs) && IfacesFormed(d)
    ensures NextLink(open, d, link, pairs).None? <==> LinkTodo(d, link, pairs) == 0
    ensures NextLink(open, d, link, pairs).None? ==> SetLink(open, d, link, pairs) == d
    ensures NextLink(open, d, link, pairs).Some? ==>
              var e := NextLink(open, d, link, pairs).value;
              && WellFormed(e) && HasIface(e, link) && OnlyLink(d, e, link)
              && LinkTodo(e, link, pairs) + 1 == LinkTodo(d, link, pairs)
              && SetLink(open, e, link, pairs) == SetLink(open, d, link, pairs)
  {
    hide Classify, Lookup, Iface, HasIface, SetIface, WrongKeys, PutAll, NextKeys;
    if !HasIface(d, link) {
      var indent := ChildIndent(open, d);
      NewIfaceEffect(indent, link);
      AppendEffect(d, NewIface(indent, link));
      WrongKeysAll(Iface(NewIface(indent, link), link).1, pairs);
    } else {
      var (io, ib) := Iface(d, link);
      NextKeysEffect(io, ib, pairs);
      SetIfaceTwice(d, link, ib, ib);
      if NextKeys(io, ib, pairs).Some? {
        var b := NextKeys(io, ib, pairs).value;
        assert Lookup(b, "linknumber") == Lookup(ib, "linknumber");
        SetIfaceEffect(d, link, b);
        SetIfaceTwice(d, link, b, PutAll(io, ib, pairs));
      }
    }
  }

  /** The interface bodies of a well-formed body are well-formed. */
  ghost predicate IfacesFormed(d: Doc) {
    forall n: nat :: HasIface(d, n) ==> WellFormed(Iface(d, n).1)
  }

  lemma {:induction false} IfacesAreFormed(d: Doc)
    requires WellFormed(d)
    ensures IfacesFormed(d)
    decreases d
  {
    hide Classify, IsIface;
    match d {
      case End =>
      case Row(_, rest) =>
        IfacesAreFormed(rest);
        forall n: nat | HasIface(d, n) ensures WellFormed(Iface(d, n).1) {
          assert HasIface(rest, n);
        }
      case Block(o, b, _, rest) =>
        IfacesAreFormed(rest);
        forall n: nat | HasIface(d, n) ensures WellFormed(Iface(d, n).1) {
          assert IsIface(o, b, n) || HasIface(rest, n);
        }
    }
  }

  // ----- all links ----------------------------------------------------------------------

  lemma {:induction false} OnlyLinkTodo(d: Doc, e: Doc, link: nat, links: seq<nat>, pairs: Pairs)
    requires OnlyLink(d, e, link) && forall i :: 0 <= i < |links| ==> links[i] != link
    ensures LinksTodo(e, links, pairs) == LinksTodo(d, links, pairs)
    decreases |links|
  {
    hide Lookup, HasIface, Iface, WrongKeys;
    if links != [] {
      OnlyLinkTodo(d, e, link, links[1..], pairs);
    }
  }

  /** One edit lowers what the links need by exactly one and undoes no earlier edit. */
  lemma {:induction false} NextLinksEffect(open: string, d: Doc, links: seq<nat>, pairs: Pairs)
    requires WellFormed(d) && LinkPairs(pairs) && Distinct(links)
    ensures NextLinks(open, d, links, pairs).None? <==> LinksTodo(d, links, pairs) == 0
    ensures NextLinks(open, d, links, pairs).None? ==> SetLinks(open, d, links, pairs) == d
    ensures NextLinks(open, d, links, pairs).Some? ==>
              var e := NextLinks(open, d, links, pairs).value;
              && WellFormed(e) && (forall k :: Lookup(e, k) == Lookup(d, k))
              && (forall n: nat :: LinkTodo(d, n, pairs) == 0 ==> LinkTodo(e, n, pairs) == 0)
              && LinksTodo(e, links, pairs) + 1 == LinksTodo(d, links, pairs)
              && SetLinks(open, e, links, pairs) == SetLinks(open, d, links, pairs)
    decreases |links|
  {
    hide Classify, Lookup, WrongKeys, NextLink, SetLink, LinkTodo;
    if links != [] {
      var link, rest := links[0], links[1..];
      IfacesAreFormed(d);
      NextLinkEffect(open, d, link, pairs);
      match NextLink(open, d, link, pairs) {
        case Some(e) =>
          OnlyLinkTodo(d, e, link, rest, pairs);
          forall n: nat | LinkTodo(d, n, pairs) == 0 ensures LinkTodo(e, n, pairs) == 0 {
            if n != link {
              OnlyLinkTodoOne(d, e, link, n, pairs);
            }
          }
        case None =>
          NextLinksEffect(open, d, rest, pairs);
          if NextLinks(open, d, rest, pairs).Some? {
            var e := NextLinks(open, d, rest, pairs).value;
            IfacesAreFormed(e);
            NextLinkEffect(open, e, link, pairs);
          }
      }
    }
  }

  lemma {:induction false} OnlyLinkTodoOne(d: Doc, e: Doc, link: nat, n: nat, pairs: Pairs)
    requires OnlyLink(d, e, link) && n != link
    ensures LinkTodo(e, n, pairs) == LinkTodo(d, n, pairs)
  {
    hide Lookup, HasIface, Iface, WrongKeys;
  }

  lemma {:induction false} HeartbeatPairs(token: nat)
    ensures LinkPairs(HeartbeatValues(token)) && |HeartbeatValues(token)| == 3
    ensures IsName("token") && Trimmed(Decimal(token))
    ensures forall i :: 0 <= i < 3 ==> HeartbeatValues(token)[i].0 != "token"
  {
    hide IsName, Trimmed, Decimal;
    HeartbeatNames();
    DecimalTrimmed(token);
    DecimalTrimmed(token / 2);
    DecimalTrimmed(token / 20);
  }

  lemma {:induction false} HeartbeatNames()
    ensures IsName("token") && IsName("knet_ping_timeout") && IsName("knet_ping_interval") && IsName("knet_pong_count")
    ensures Trimmed("2")
  {
  }

  lemma {:induction false} SameIfacesTodo(d: Doc, e: Doc, links: seq<nat>, pairs: Pairs)
    requires SameIfaces(d, e)
    ensures LinksTodo(e, links, pairs) == LinksTodo(d, links, pairs)
    decreases |links|
  {
    hide HasIface, Iface, WrongKeys;
    if links != [] {
      SameIfacesTodo(d, e, links[1..], pairs);
    }
  }

  /** Each pass makes exactly one of the missing edits; the settled body never changes on
      the way, and a body that misses nothing is already settled. */
  lemma {:induction false} NextEffect(open: string, d: Doc, links: seq<nat>, token: nat)
    requires WellFormed(d) && Distinct(links)
    ensures Next(open, d, links, token).None? <==> Todo(d, links, token) == 0
    ensures Next(open, d, links, token).None? ==> Settle(open, d, links, token) == d
    ensures Next(open, d, links, token).Some? ==>
              var e := Next(open, d, links, token).value;
              && WellFormed(e) && Todo(e, links, token) + 1 == Todo(d, links, token)
              && Settle(open, e, links, token) == Settle(open, d, links, token)
  {
    hide Classify, Lookup, HeartbeatValues, PutKey, Decimal, NextLinks, SetLinks, LinksTodo;
    var pairs, v := HeartbeatValues(token), Decimal(token);
    HeartbeatPairs(token);
    PutKeyEffect(open, d, "token", v);
    NextLinksEffect(open, d, links, pairs);
    if Lookup(d, "token") != Some(v) {
      var e := PutKey(open, d, "token", v);
      SameIfacesTodo(d, e, links, pairs);
      PutKeyEffect(open, e, "token", v);
    } else if NextLinks(open, d, links, pairs).Some? {
      PutKeyEffect(open, NextLinks(open, d, links, pairs).value, "token", v);
    }
  }

  /** A totem body never needs more than one edit for the token and four for each link. */
  lemma {:induction false} TodoBound(d: Doc, links: seq<nat>, token: nat)
    ensures Todo(d, links, token) <= 1 + 4 * |links|
  {
    hide Lookup;
    LinksTodoBound(d, links, HeartbeatValues(token));
  }

  lemma {:induction false} LinksTodoBound(d: Doc, links: seq<nat>, pairs: Pairs)
    requires |pairs| == 3
    ensures LinksTodo(d, links, pairs) <= 4 * |links|
    decreases |links|
  {
    hide Lookup, HasIface, Iface, WrongKeys;
    if links != [] {
      if HasIface(d, links[0]) {
        WrongKeysBound(Iface(d, links[0]).1, pairs);
      }
      LinksTodoBound(d, links[1..], pairs);
    }
  }

  lemma {:induction false} WrongKeysBound(d: Doc, pairs: Pairs)
    ensures WrongKeys(d, pairs) <= |pairs|
    decreases |pairs|
  {
    hide Lookup;
    if pairs != [] {
      WrongKeysBound(d, pairs[1..]);
    }
  }

  /** The settled body misses nothing. */
  lemma {:induction false} SettleIsDone(open: string, d: Doc, links: seq<nat>, token: nat)
    requires WellFormed(d) && Distinct(links)
    ensures WellFormed(Settle(open, d, links, token)) && Todo(Settle(open, d, links, token), links, token) == 0
    decreases Todo(d, links, token)
  {
    hide Classify, Settle, Next, Todo;
    NextEffect(open, d, links, token);
    if Next(open, d, links, token).Some? {
      SettleIsDone(open, Next(open, d, links, token).value, links, token);
    }
  }
}
