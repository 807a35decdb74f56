/** Where the parts of the tree sit in the file: the line indices the parser records are the
    positions at which an edit of the tree changes the flat list of lines. */
module CorosyncLocate {
  import opened Wrappers
  import opened Text
  import opened CorosyncSyntax
  import opened CorosyncTree
  import opened CorosyncEdit
  import opened CorosyncConfig

  // ----- keys ---------------------------------------------------------------------------

  /** The position of the first line of a direct key in the flattened body. */
  function KeyPos(d: Doc, key: string): (n: nat)
    requires Lookup(d, key).Some?
    ensures n < Size(d)
  {
    match d
    case Row(l, rest) =>
      if Classify(l).Key? && Classify(l).key == key then 0 else 1 + KeyPos(rest, key)
    case Block(_, b, _, rest) => 2 + Size(b) + KeyPos(rest, key)
  }

  lemma {:induction false} KeysAreLookups(d: Doc, off: nat, key: string)
    ensures key in KeysOf(d, off) <==> Lookup(d, key).Some?
    ensures key in KeysOf(d, off) ==> KeysOf(d, off)[key] == (off + KeyPos(d, key), Lookup(d, key).value)
    decreases d
  {
    hide Classify;
    match d {
      case End =>
      case Row(l, rest) => KeysAreLookups(rest, off + 1, key);
      case Block(_, b, _, rest) => KeysAreLookups(rest, off + 2 + Size(b), key);
    }
  }

  lemma {:induction false} UpdateLater<T>(head: seq<T>, tail: seq<T>, q: nat, x: T)
    requires q < |tail|
    ensures (head + tail)[|head| + q] == tail[q] && (head + tail)[|head| + q := x] == head + tail[q := x]
  {
  }

  /** Rewriting a key changes one line: the first line of that key. */
  lemma {:induction false} SetRowLines(d: Doc, key: string, value: string)
    requires Lookup(d, key).Some?
    ensures var p := KeyPos(d, key);
            var l := Flatten(d)[p];
            Flatten(SetRow(d, key, value)) == Flatten(d)[p := KeyLine(IndentOf(l), key, value)]
    decreases d
  {
    hide Classify, KeyLine, IndentOf;
    var p := KeyPos(d, key);
    match d {
      case Row(l, rest) =>
        if Classify(l).Key? && Classify(l).key == key {
        } else {
          SetRowLines(rest, key, value);
          UpdateLater([l], Flatten(rest), p - 1, KeyLine(IndentOf(Flatten(rest)[p - 1]), key, value));
        }
      case Block(o, b, c, rest) =>
        SetRowLines(rest, key, value);
        var q := KeyPos(rest, key);
        UpdateLater([o] + Flatten(b) + [c], Flatten(rest), q, KeyLine(IndentOf(Flatten(rest)[q]), key, value));
    }
  }

  lemma {:induction false} Associate<T>(a: seq<T>, b: seq<T>, c: seq<T>)
    ensures a + b + c == a + (b + c)
  {
  }

  lemma {:induction false} AppendLines(d: Doc, e: Doc)
    ensures Flatten(Append(d, e)) == Flatten(d) + Flatten(e)
    decreases d
  {
    match d {
      case End => assert Flatten(End) + Flatten(e) == Flatten(e);
      case Row(l, rest) =>
        AppendLines(rest, e);
        Associate([l], Flatten(rest), Flatten(e));
      case Block(o, b, c, rest) =>
        AppendLines(rest, e);
        Associate([o] + Flatten(b) + [c], Flatten(rest), Flatten(e));
    }
  }

  /** The first non-blank line of a list of lines. */
  function FirstNonBlank(lines: seq<string>): Option<string> {
    if lines == [] then None
    else if Strip(lines[0]) != "" then Some(lines[0])
    else FirstNonBlank(lines[1..])
  }

  lemma {:induction false} FirstTextLines(d: Doc)
    requires WellFormed(d)
    ensures FirstNonBlank(Flatten(d)) == FirstText(d)
    decreases d
  {
    hide Strip, OpenName, IsClose, KeyValue;
    match d {
      case End =>
      case Row(l, rest) =>
        FirstTextLines(rest);
        assert ([l] + Flatten(rest))[1..] == Flatten(rest);
      case Block(o, b, c, rest) => assert Flatten(d)[0] == o;
    }
  }

  // ----- an interface block inside a body -----------------------------------------------

  /** Line offset and section index of the interface block of `link` in a body that starts
      at line `off` and whose first section has index `base`. */
  function IfacePos(d: Doc, off: nat, base: nat, link: nat): (nat, nat)
    requires HasIface(d, link)
  {
    match d
    case Row(_, rest) => IfacePos(rest, off + 1, base, link)
    case Block(o, b, _, rest) =>
      if IsIface(o, b, link) then (off, base) else IfacePos(rest, off + 2 + Size(b), base + 1 + CountBlocks(b), link)
  }

  /** The link number recorded for a section. */
  function SectionNumber(s: Section): string {
    if "linknumber" in s.keys then s.keys["linknumber"].1 else "0"
  }

  /** The first child that is an interface section of `link`. */
  function FindChild(all: seq<Section>, children: seq<nat>, link: nat): (r: Option<nat>)
    requires forall i :: 0 <= i < |children| ==> children[i] < |all|
    ensures r.Some? ==> r.value < |all|
  {
    if children == [] then None
    else if all[children[0]].name == "interface" && SectionNumber(all[children[0]]) == Decimal(link) then Some(children[0])
    else FindChild(all, children[1..], link)
  }

  /** The sections of a body are listed in `all` from index `base` on. */
  ghost predicate Listed(all: seq<Section>, d: Doc, off: nat, base: nat, path: seq<string>) {
    base + CountBlocks(d) <= |all| && all[base..base + CountBlocks(d)] == SectionsOf(d, off, base, path)
  }

  lemma {:induction false} ListedRow(all: seq<Section>, l: string, rest: Doc, off: nat, base: nat, path: seq<string>)
    requires Listed(all, Row(l, rest), off, base, path)
    ensures Listed(all, rest, off + 1, base, path)
  {
    hide Classify;
  }

  lemma {:induction false} ListedBlock(
      all: seq<Section>, o: string, b: Doc, c: string, rest: Doc, off: nat, base: nat, path: seq<string>)
    requires Listed(all, Block(o, b, c, rest), off, base, path)
    ensures base < |all| && all[base] == SectionOf(o, b, off, base, path)
    ensures Listed(all, b, off + 1, base + 1, path + [NameOf(o)])
    ensures Listed(all, rest, off + 2 + Size(b), base + 1 + CountBlocks(b), path)
  {
    hide Classify, SectionOf, KeysOf, SectionsOf, NameOf;
    UnfoldBlock(o, b, c, rest, off, base, path);
    var inner := SectionsOf(b, off + 1, base + 1, path + [NameOf(o)]);
    var after := SectionsOf(rest, off + 2 + Size(b), base + 1 + CountBlocks(b), path);
    ThreeParts(all, base, SectionOf(o, b, off, base, path), inner, after);
  }

  lemma {:induction false} ThreeParts<T>(all: seq<T>, base: nat, first: T, inner: seq<T>, after: seq<T>)
    requires base + 1 + |inner| + |after| <= |all|
    requires all[base..base + 1 + |inner| + |after|] == [first] + inner + after
    ensures all[base] == first && all[base + 1..base + 1 + |inner|] == inner
    ensures all[base + 1 + |inner|..base + 1 + |inner| + |after|] == after
  {
    var n, m := |inner|, 1 + |inner| + |after|;
    var whole := [first] + inner + after;
    SubSlice(all, base, m, 0, 1);
    SubSlice(all, base, m, 1, 1 + n);
    SubSlice(all, base, m, 1 + n, m);
    assert whole[0..1] == [first] && whole[1..1 + n] == inner && whole[1 + n..m] == after;
    assert all[base] == all[base..base + 1][0];
  }

  lemma {:induction false} SubSlice<T>(s: seq<T>, b: nat, n: nat, i: nat, j: nat)
    requires i <= j <= n && b + n <= |s|
    ensures s[b..b + n][i..j] == s[b + i..b + j]
  {
    var x, y := s[b..b + n][i..j], s[b + i..b + j];
    assert |x| == |y| && forall k :: 0 <= k < |x| ==> x[k] == s[b + i + k] == y[k];
  }

  lemma {:induction false} ChildrenListed(all: seq<Section>, d: Doc, off: nat, base: nat, path: seq<string>)
    requires Listed(all, d, off, base, path)
    ensures forall i :: 0 <= i < |ChildrenOf(d, base)| ==> ChildrenOf(d, base)[i] < |all|
    decreases d
  {
    hide Classify, KeysOf, SectionsOf;
    match d {
      case End =>
      case Row(l, rest) =>
        ListedRow(all, l, rest, off, base, path);
        ChildrenListed(all, rest, off + 1, base, path);
      case Block(o, b, c, rest) =>
        ListedBlock(all, o, b, c, rest, off, base, path);
        ChildrenListed(all, rest, off + 2 + Size(b), base + 1 + CountBlocks(b), path);
    }
  }

  lemma {:induction false} SectionIsIface(o: string, b: Doc, off: nat, base: nat, path: seq<string>, link: nat)
    requires Classify(o).Open?
    ensures var s := SectionOf(o, b, off, base, path);
            IsIface(o, b, link) <==> s.name == "interface" && SectionNumber(s) == Decimal(link)
  {
    hide Classify, Decimal, KeysOf, ChildrenOf;
    KeysAreLookups(b, off + 1, "linknumber");
  }

  /** Searching the children of a section finds its interface block exactly when the tree has
      one, and the section found is that block's. */
  lemma {:induction false} FindChildIsIface(
      all: seq<Section>, d: Doc, off: nat, base: nat, path: seq<string>, link: nat)
    requires WellFormed(d) && Listed(all, d, off, base, path)
    requires forall i :: 0 <= i < |ChildrenOf(d, base)| ==> ChildrenOf(d, base)[i] < |all|
    ensures FindChild(all, ChildrenOf(d, base), link)
         == if HasIface(d, link) then Some(IfacePos(d, off, base, link).1) else None
    ensures HasIface(d, link) ==>
              var (io, ib) := Iface(d, link);
              var (ioff, ibase) := IfacePos(d, off, base, link);
              ibase < |all| && all[ibase] == SectionOf(io, ib, ioff, ibase, path)
    decreases d
  {
    hide Classify, IsIface, SectionOf, SectionsOf, SectionNumber, KeysOf, Listed;
    match d {
      case End =>
      case Row(l, rest) =>
        ListedRow(all, l, rest, off, base, path);
        assert ChildrenOf(d, base) == ChildrenOf(rest, base);
        FindChildIsIface(all, rest, off + 1, base, path, link);
      case Block(o, b, c, rest) =>
        ListedBlock(all, o, b, c, rest, off, base, path);
        SectionIsIface(o, b, off, base, path, link);
        var kids := ChildrenOf(rest, base + 1 + CountBlocks(b));
        assert ([base] + kids)[1..] == kids;
        assert forall i :: 0 <= i < |kids| ==> kids[i] == ChildrenOf(d, base)[i + 1];
        FindChildIsIface(all, rest, off + 2 + Size(b), base + 1 + CountBlocks(b), path, link);
    }
  }

  /** `all'` is `all` with the body `b` of the section opened at line `p` replaced by `b'`. */
  ghost predicate Replaces(all: seq<string>, all': seq<string>, p: nat, open: string, b: seq<string>, b': seq<string>) {
    && p + 2 + |b| <= |all| && all[p] == open && all[p + 1..p + 1 + |b|] == b
    && all' == all[..p + 1] + b' + all[p + 1 + |b|..]
  }

  lemma {:induction false} ReplacesHere(o: string, b: seq<string>, c: string, rest: seq<string>, b': seq<string>)
    ensures Replaces([o] + b + [c] + rest, [o] + b' + [c] + rest, 0, o, b, b')
  {
    var all := [o] + b + [c] + rest;
    assert all[..1] == [o];
    assert all[1 + |b|..] == [c] + rest;
    assert all[1..1 + |b|] == b;
  }

  lemma {:induction false} ReplacesLater(
      head: seq<string>, all: seq<string>, all': seq<string>, p: nat, open: string, b: seq<string>, b': seq<string>)
    requires Replaces(all, all', p, open, b, b')
    ensures Replaces(head + all, head + all', |head| + p, open, b, b')
  {
    var h, whole := |head|, head + all;
    assert whole[..h + p + 1] == head + all[..p + 1];
    assert whole[h + p + 1 + |b|..] == all[p + 1 + |b|..];
    assert whole[h + p + 1..h + p + 1 + |b|] == all[p + 1..p + 1 + |b|];
    assert head + (all[..p + 1] + b' + all[p + 1 + |b|..]) == head + all[..p + 1] + b' + all[p + 1 + |b|..];
  }

  lemma {:induction false} RowLines(l: string, rest: Doc)
    ensures Flatten(Row(l, rest)) == [l] + Flatten(rest)
  {
  }

  lemma {:induction false} BlockLines(o: string, b: Doc, c: string, rest: Doc)
    ensures Flatten(Block(o, b, c, rest)) == ([o] + Flatten(b) + [c]) + Flatten(rest)
    ensures |[o] + Flatten(b) + [c]| == 2 + Size(b)
  {
  }

  /** Replacing the body of an interface block replaces that slice of the lines. */
  lemma {:induction false} SetIfaceLines(d: Doc, off: nat, base: nat, link: nat, body: Doc)
    requires HasIface(d, link)
    ensures var p := IfacePos(d, off, base, link).0 - off;
            0 <= p && Replaces(Flatten(d), Flatten(SetIface(d, link, body)), p, Iface(d, link).0,
                               Flatten(Iface(d, link).1), Flatten(body))
    decreases d
  {
    hide Classify, IsIface, Flatten, Size, Replaces;
    var p := IfacePos(d, off, base, link).0 - off;
    var (io, ib) := Iface(d, link);
    match d {
      case Row(l, rest) =>
        SetIfaceLines(rest, off + 1, base, link, body);
        RowLines(l, rest);
        RowLines(l, SetIface(rest, link, body));
        ReplacesLater([l], Flatten(rest), Flatten(SetIface(rest, link, body)), p - 1, io, Flatten(ib), Flatten(body));
      case Block(o, b, c, rest) =>
        BlockLines(o, b, c, rest);
        if IsIface(o, b, link) {
          BlockLines(o, body, c, rest);
          ReplacesHere(o, Flatten(b), c, Flatten(rest), Flatten(body));
        } else {
          var rest' := SetIface(rest, link, body);
          SetIfaceLines(rest, off + 2 + Size(b), base + 1 + CountBlocks(b), link, body);
          BlockLines(o, b, c, rest');
          ReplacesLater([o] + Flatten(b) + [c], Flatten(rest), Flatten(rest'), p - 2 - Size(b), io, Flatten(ib), Flatten(body));
        }
    }
  }

  // ----- the totem section --------------------------------------------------------------

  /** Line offset and section index of the first totem section. */
  function TotemPos(d: Doc, off: nat, base: nat): (nat, nat)
    requires TotemCount(d) > 0
  {
    match d
    case Row(_, rest) => TotemPos(rest, off + 1, base)
    case Block(o, b, _, rest) =>
      if NameOf(o) == "totem" then (off, base) else TotemPos(rest, off + 2 + Size(b), base + 1 + CountBlocks(b))
  }

  /** Replacing the totem body replaces that slice of the lines. */
  lemma {:induction false} WithTotemLines(d: Doc, off: nat, base: nat, body: Doc)
    requires TotemCount(d) > 0
    ensures var p := TotemPos(d, off, base).0 - off;
            0 <= p && Replaces(Flatten(d), Flatten(WithTotem(d, body)), p, Totem(d).0, Flatten(Totem(d).1), Flatten(body))
    decreases d
  {
    hide Classify, NameOf, Flatten, Size, Replaces;
    var p := TotemPos(d, off, base).0 - off;
    var (to, tb) := Totem(d);
    match d {
      case Row(l, rest) =>
        WithTotemLines(rest, off + 1, base, body);
        RowLines(l, rest);
        RowLines(l, WithTotem(rest, body));
        ReplacesLater([l], Flatten(rest), Flatten(WithTotem(rest, body)), p - 1, to, Flatten(tb), Flatten(body));
      case Block(o, b, c, rest) =>
        BlockLines(o, b, c, rest);
        if NameOf(o) == "totem" {
          BlockLines(o, body, c, rest);
          ReplacesHere(o, Flatten(b), c, Flatten(rest), Flatten(body));
        } else {
          var rest' := WithTotem(rest, body);
          WithTotemLines(rest, off + 2 + Size(b), base + 1 + CountBlocks(b), body);
          BlockLines(o, b, c, rest');
          ReplacesLater([o] + Flatten(b) + [c], Flatten(rest), Flatten(rest'), p - 2 - Size(b), to, Flatten(tb), Flatten(body));
        }
    }
  }

  /** The sections whose path is just `totem`, as indices. */
  function TotemSections(s: seq<Section>, from: nat): seq<nat> {
    if s == [] then []
    else (if s[0].path == ["totem"] then [from] else []) + TotemSections(s[1..], from + 1)
  }

  lemma {:induction false} TotemSectionsStep(s: seq<Section>, from: nat)
    requires s != []
    ensures TotemSections(s, from)
         == (if s[0].path == ["totem"] then [from] else []) + TotemSections(s[1..], from + 1)
  {
  }

  lemma {:induction false} TotemSectionsAppend(s: seq<Section>, t: seq<Section>, from: nat)
    ensures TotemSections(s + t, from) == TotemSections(s, from) + TotemSections(t, from + |s|)
    decreases |s|
  {
    if s == [] {
      assert s + t == t;
    } else {
      hide TotemSections;
      TotemSectionsStep(s, from);
      TotemSectionsStep(s + t, from);
      assert (s + t)[1..] == s[1..] + t;
      TotemSectionsAppend(s[1..], t, from + 1);
    }
  }

  lemma {:induction false} TotemSectionsNone(from: nat)
    ensures TotemSections([], from) == []
  {
  }

  lemma {:induction false} TotemSectionsBlock(
      o: string, b: Doc, c: string, rest: Doc, off: nat, base: nat, path: seq<string>, from: nat)
    ensures TotemSections(SectionsOf(Block(o, b, c, rest), off, base, path), from)
         == (if path + [NameOf(o)] == ["totem"] then [from] else [])
            + TotemSections(SectionsOf(b, off + 1, base + 1, path + [NameOf(o)]), from + 1)
            + TotemSections(SectionsOf(rest, off + 2 + Size(b), base + 1 + CountBlocks(b), path), from + 1 + CountBlocks(b))
  {
    hide Classify, NameOf, KeysOf, SectionsOf, TotemSections;
    UnfoldBlock(o, b, c, rest, off, base, path);
    var first := [SectionOf(o, b, off, base, path)];
    TotemSectionsStep(first, from);
    TotemSectionsNone(from + 1);
    var inner := SectionsOf(b, off + 1, base + 1, path + [NameOf(o)]);
    var after := SectionsOf(rest, off + 2 + Size(b), base + 1 + CountBlocks(b), path);
    TotemSectionsAppend(first + inner, after, from);
    TotemSectionsAppend(first, inner, from);
    assert first[0].path == path + [NameOf(o)] && first[1..] == [];
  }

  lemma {:induction false} NoTotemInside(d: Doc, off: nat, base: nat, path: seq<string>, from: nat)
    requires path != []
    ensures TotemSections(SectionsOf(d, off, base, path), from) == []
    decreases d
  {
    hide Classify, NameOf, KeysOf, SectionsOf, TotemSections;
    match d {
      case End => NoSections(off, base, path, from);
      case Row(l, rest) =>
        SectionsRow(l, rest, off, base, path);
        NoTotemInside(rest, off + 1, base, path, from);
      case Block(o, b, c, rest) =>
        TotemSectionsBlock(o, b, c, rest, off, base, path, from);
        NoTotemInside(b, off + 1, base + 1, path + [NameOf(o)], from + 1);
        NoTotemInside(rest, off + 2 + Size(b), base + 1 + CountBlocks(b), path, from + 1 + CountBlocks(b));
        assert |path + [NameOf(o)]| > |["totem"]|;
    }
  }

  lemma {:induction false} NoSections(off: nat, base: nat, path: seq<string>, from: nat)
    ensures SectionsOf(End, off, base, path) == [] && TotemSections([], from) == [] && SectionRings([]) == {}
  {
  }

  lemma {:induction false} SectionsRow(l: string, rest: Doc, off: nat, base: nat, path: seq<string>)
    ensures SectionsOf(Row(l, rest), off, base, path) == SectionsOf(rest, off + 1, base, path)
  {
  }

  /** The parser's sections hold one `totem` path for each top-level totem of the tree, and
      the first is the tree's first totem. */
  lemma {:induction false} TotemSectionsOf(d: Doc, off: nat, base: nat)
    ensures |TotemSections(SectionsOf(d, off, base, []), base)| == TotemCount(d)
    ensures TotemCount(d) > 0 ==>
              TotemSections(SectionsOf(d, off, base, []), base)[0] == TotemPos(d, off, base).1
    decreases d
  {
    hide Classify, NameOf, KeysOf, SectionsOf, TotemSections;
    match d {
      case End => NoSections(off, base, [], base);
      case Row(l, rest) =>
        SectionsRow(l, rest, off, base, []);
        TotemSectionsOf(rest, off + 1, base);
      case Block(o, b, c, rest) =>
        TotemSectionsBlock(o, b, c, rest, off, base, [], base);
        NoTotemInside(b, off + 1, base + 1, [] + [NameOf(o)], base + 1);
        TotemSectionsOf(rest, off + 2 + Size(b), base + 1 + CountBlocks(b));
        var name := NameOf(o);
        assert [] + [name] == [name];
        assert [name] == ["totem"] <==> [name][0] == "totem";
    }
  }

  /** The recorded totem section and its listed inner sections. */
  lemma {:induction false} TotemListed(all: seq<Section>, d: Doc, off: nat, base: nat)
    requires TotemCount(d) > 0 && Listed(all, d, off, base, [])
    ensures var (o, b) := Totem(d);
            var (toff, tbase) := TotemPos(d, off, base);
            && NameOf(o) == "totem" && tbase < |all| && all[tbase] == SectionOf(o, b, toff, tbase, [])
            && Listed(all, b, toff + 1, tbase + 1, ["totem"])
    decreases d
  {
    hide Classify, NameOf, SectionOf, Listed;
    match d {
      case Row(l, rest) =>
        ListedRow(all, l, rest, off, base, []);
        TotemListed(all, rest, off + 1, base);
      case Block(o, b, c, rest) =>
        ListedBlock(all, o, b, c, rest, off, base, []);
        if NameOf(o) == "totem" {
          assert [] + [NameOf(o)] == ["totem"];
        } else {
          TotemListed(all, rest, off + 2 + Size(b), base + 1 + CountBlocks(b));
        }
    }
  }

  // ----- the heartbeat links ------------------------------------------------------------

  /** The ring numbers the parser's sections name. */
  function SectionRings(s: seq<Section>): set<nat> {
    if s == [] then {}
    else (if s[0].path == ["nodelist", "node"] then RingsOfKeys(s[0].keys.Keys) else {}) + SectionRings(s[1..])
  }

  lemma {:induction false} SectionRingsAppend(s: seq<Section>, t: seq<Section>)
    ensures SectionRings(s + t) == SectionRings(s) + SectionRings(t)
    decreases |s|
  {
    hide RingsOfKeys;
    if s == [] {
      assert s + t == t;
    } else {
      assert (s + t)[1..] == s[1..] + t;
      SectionRingsAppend(s[1..], t);
    }
  }

  lemma {:induction false} KeysAreKeySet(d: Doc, off: nat)
    ensures KeysOf(d, off).Keys == KeySet(d)
    decreases d
  {
    hide Classify;
    match d {
      case End =>
      case Row(_, rest) => KeysAreKeySet(rest, off + 1);
      case Block(_, b, _, rest) => KeysAreKeySet(rest, off + 2 + Size(b));
    }
  }

  lemma {:induction false} SectionRingsBlock(
      o: string, b: Doc, c: string, rest: Doc, off: nat, base: nat, path: seq<string>)
    ensures SectionRings(SectionsOf(Block(o, b, c, rest), off, base, path))
         == (if path + [NameOf(o)] == ["nodelist", "node"] then RingsOfKeys(KeySet(b)) else {})
            + SectionRings(SectionsOf(b, off + 1, base + 1, path + [NameOf(o)]))
            + SectionRings(SectionsOf(rest, off + 2 + Size(b), base + 1 + CountBlocks(b), path))
  {
    hide Classify, NameOf, RingsOfKeys, KeysOf, SectionsOf, KeySet;
    UnfoldBlock(o, b, c, rest, off, base, path);
    var first := [SectionOf(o, b, off, base, path)];
    var inner := SectionsOf(b, off + 1, base + 1, path + [NameOf(o)]);
    var after := SectionsOf(rest, off + 2 + Size(b), base + 1 + CountBlocks(b), path);
    SectionRingsAppend(first + inner, after);
    SectionRingsAppend(first, inner);
    KeysAreKeySet(b, off + 1);
    assert first[0].path == path + [NameOf(o)] && first[1..] == [];
  }

  lemma {:induction false} NoRingsDeep(d: Doc, off: nat, base: nat, path: seq<string>)
    requires |path| >= 2
    ensures SectionRings(SectionsOf(d, off, base, path)) == {}
    decreases d
  {
    hide Classify, NameOf, RingsOfKeys, KeysOf, SectionsOf, SectionRings;
    match d {
      case End => NoSections(off, base, path, 0);
      case Row(l, rest) =>
        SectionsRow(l, rest, off, base, path);
        NoRingsDeep(rest, off + 1, base, path);
      case Block(o, b, c, rest) =>
        SectionRingsBlock(o, b, c, rest, off, base, path);
        NoRingsDeep(b, off + 1, base + 1, path + [NameOf(o)]);
        NoRingsDeep(rest, off + 2 + Size(b), base + 1 + CountBlocks(b), path);
    }
  }

  lemma {:induction false} RingsInside(d: Doc, off: nat, base: nat, name: string)
    ensures SectionRings(SectionsOf(d, off, base, [name])) == if name == "nodelist" then NodeRings(d) else {}
    decreases d
  {
    hide Classify, NameOf, RingsOfKeys, KeysOf, KeySet, SectionsOf, SectionRings;
    match d {
      case End => NoSections(off, base, [name], 0);
      case Row(l, rest) =>
        SectionsRow(l, rest, off, base, [name]);
        RingsInside(rest, off + 1, base, name);
      case Block(o, b, c, rest) =>
        SectionRingsBlock(o, b, c, rest, off, base, [name]);
        NoRingsDeep(b, off + 1, base + 1, [name] + [NameOf(o)]);
        RingsInside(rest, off + 2 + Size(b), base + 1 + CountBlocks(b), name);
        assert [name] + [NameOf(o)] == [name, NameOf(o)];
        var two := [name, NameOf(o)];
        assert two == ["nodelist", "node"] <==> two[0] == "nodelist" && two[1] == "node";
    }
  }

  /** The parser's sections name the same rings as the tree. */
  lemma {:induction false} SectionRingsOf(d: Doc, off: nat, base: nat)
    ensures SectionRings(SectionsOf(d, off, base, [])) == Rings(d)
    decreases d
  {
    hide Classify, NameOf, RingsOfKeys, KeysOf, KeySet, NodeRings, SectionsOf, SectionRings;
    match d {
      case End => NoSections(off, base, [], base);
      case Row(l, rest) =>
        SectionsRow(l, rest, off, base, []);
        SectionRingsOf(rest, off + 1, base);
      case Block(o, b, c, rest) =>
        SectionRingsBlock(o, b, c, rest, off, base, []);
        assert [] + [NameOf(o)] == [NameOf(o)];
        RingsInside(b, off + 1, base + 1, NameOf(o));
        SectionRingsOf(rest, off + 2 + Size(b), base + 1 + CountBlocks(b));
    }
  }
}
