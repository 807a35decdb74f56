/** The editor of corosync.conf: it parses the lines, makes the first missing edit in place,
    parses again, and stops when nothing is missing. */
module CorosyncEditor {
  import opened Wrappers
  import opened Text
  import opened CorosyncSyntax
  import opened CorosyncTree
  import opened CorosyncEdit
  import opened CorosyncConfig
  import opened CorosyncLocate

  const TOKEN_MIN := 3000
  const TOKEN_MAX := 120000

  datatype EditError =
    | TokenOutOfRange
    | Unparsable(reason: ParseError)
    | TotemSectionCount(count: nat)
    | NotConverged

  // ----- reading ------------------------------------------------------------------------

  /** Pairs the braces with a stack; an opened section is listed at once and closed later. */
  method Parse(lines: seq<string>) returns (r: Result<seq<Section>, ParseError>)
    ensures r == Scan(lines)
    ensures r.Ok? <==> TreeOf(lines).Some?
    ensures r.Ok? ==> r.value == SectionsOf(TreeOf(lines).value, 0, 0, [])
  {
    hide Classify, SectionsOf, Read, Fold;
    ScanMatchesTree(lines);
    var sections: seq<Section>, stack: seq<nat> := [], [];
    var index := 0;
    assert lines[0..] == lines;
    while index < |lines|
      invariant index <= |lines|
      invariant State(sections, stack).Valid()
      invariant Fold(State([], []), lines, 0) == Fold(State(sections, stack), lines[index..], index)
    {
      assert lines[index..] == [lines[index]] + lines[index + 1..];
      FoldCons(State(sections, stack), lines[index], lines[index + 1..], index);
      ghost var next := Step(State(sections, stack), index, lines[index]);
      match Classify(lines[index]) {
        case Open(name) =>
          var parentPath := [];
          if stack != [] {
            var top := stack[|stack| - 1];
            parentPath := sections[top].path;
            sections := sections[top := sections[top].(children := sections[top].children + [|sections|])];
          }
          stack := stack + [|sections|];
          sections := sections + [Section(name, parentPath + [name], index, -1, map[], [])];
          assert [] + [name] == [name];
          assert [] + [|sections| - 1] == [|sections| - 1];
          assert Ok(State(sections, stack)) == next;
        case Close =>
          if stack == [] {
            return Err(StrayClose(index));
          }
          var top := stack[|stack| - 1];
          stack := stack[..|stack| - 1];
          sections := sections[top := sections[top].(end := index)];
          assert Ok(State(sections, stack)) == next;
        case Key(key, value) =>
          if stack != [] {
            var top := stack[|stack| - 1];
            if key !in sections[top].keys {
              sections := sections[top := sections[top].(keys := sections[top].keys[key := (index, value)])];
            }
          }
          assert Ok(State(sections, stack)) == next;
        case _ =>
          assert Ok(State(sections, stack)) == next;
      }
      assert Ok(State(sections, stack)) == next;
      index := index + 1;
    }
    assert lines[index..] == [];
    FoldNothing(State(sections, stack), index);
    if stack != [] {
      return Err(Unclosed(sections[stack[|stack| - 1]].name));
    }
    return Ok(sections);
  }

  /** The link numbers the nodelist names, ascending; link 0 when it names none. */
  method HeartbeatLinks(sections: seq<Section>) returns (links: seq<nat>)
    ensures links == LinksFrom(SectionRings(sections))
  {
    hide RingsOfKeys;
    var rings: set<nat>, i := {}, 0;
    assert sections[0..] == sections;
    while i < |sections|
      invariant i <= |sections|
      invariant SectionRings(sections) == rings + SectionRings(sections[i..])
    {
      if sections[i].path == ["nodelist", "node"] {
        rings := rings + RingsOfKeys(sections[i].keys.Keys);
      }
      assert sections[i..][1..] == sections[i + 1..];
      i := i + 1;
    }
    links := LinksFrom(rings);
  }

  /** The same indent, looked up between the section's two brace lines. */
  function IndentInside(lines: seq<string>, start: nat, end: nat): string
    requires start < end <= |lines|
  {
    match FirstNonBlank(lines[start + 1..end])
    case Some(l) => IndentOf(l)
    case None => IndentOf(lines[start]) + DEFAULT_INDENT
  }

  method FindIndentInside(lines: seq<string>, start: nat, end: nat) returns (indent: string)
    requires start < end <= |lines|
    ensures indent == IndentInside(lines, start, end)
  {
    hide Strip, IndentOf;
    var inner := lines[start + 1..end];
    var i := 0;
    assert inner[0..] == inner;
    while i < |inner|
      invariant i <= |inner|
      invariant FirstNonBlank(inner) == FirstNonBlank(inner[i..])
    {
      if Strip(inner[i]) != "" {
        return IndentOf(inner[i]);
      }
      assert inner[i..][1..] == inner[i + 1..];
      i := i + 1;
    }
    indent := IndentOf(lines[start]) + DEFAULT_INDENT;
  }

  /** The section index of the first child interface block of `link`. */
  method FindInterface(sections: seq<Section>, totem: Section, link: nat) returns (r: Option<nat>)
    requires forall i :: 0 <= i < |totem.children| ==> totem.children[i] < |sections|
    ensures r == FindChild(sections, totem.children, link)
  {
    hide SectionNumber, Decimal;
    var kids, i := totem.children, 0;
    assert kids[0..] == kids;
    while i < |kids|
      invariant i <= |kids|
      invariant FindChild(sections, kids, link) == FindChild(sections, kids[i..], link)
    {
      var child := sections[kids[i]];
      if child.name == "interface" && SectionNumber(child) == Decimal(link) {
        return Some(kids[i]);
      }
      assert kids[i..][1..] == kids[i + 1..];
      i := i + 1;
    }
    r := None;
  }

  // ----- what an edit does to the lines -------------------------------------------------

  /** The recorded section spans lines of the file. */
  predicate Spans(lines: seq<string>, s: Section) {
    s.start < s.end < |lines| && forall k :: k in s.keys ==> s.keys[k].0 < |lines|
  }

  /** The lines after setting one key of a section: its first line rewritten at its own
      indent, or a line added at the end of the section. */
  function AfterSetKey(lines: seq<string>, s: Section, key: string, value: string): seq<string>
    requires Spans(lines, s)
  {
    if key in s.keys then
      if s.keys[key].1 == value then lines
      else
        var i := s.keys[key].0;
        lines[i := KeyLine(IndentOf(lines[i]), key, value)]
    else lines[..s.end] + [KeyLine(IndentInside(lines, s.start, s.end), key, value)] + lines[s.end..]
  }

  predicate KeyDiffers(s: Section, key: string, value: string) {
    key !in s.keys || s.keys[key].1 != value
  }

  /** Section `s` is the parser's record of the block (`o`, `b`) at line `off` of the file. */
  ghost predicate Sits(lines: seq<string>, s: Section, o: string, b: Doc, off: nat, base: nat, path: seq<string>) {
    && s == SectionOf(o, b, off, base, path) && WellFormed(b)
    && off + 2 + Size(b) <= |lines| && lines[off] == o && lines[off + 1..off + 1 + Size(b)] == Flatten(b)
  }

  lemma {:induction false} SitsSpans(
      lines: seq<string>, s: Section, o: string, b: Doc, off: nat, base: nat, path: seq<string>)
    requires Sits(lines, s, o, b, off, base, path)
    ensures Spans(lines, s) && s.start == off && s.end == off + 1 + Size(b)
    ensures IndentInside(lines, s.start, s.end) == ChildIndent(o, b)
  {
    hide Classify, KeysOf, IndentOf, FirstNonBlank, FirstText, Flatten;
    forall k | k in s.keys ensures s.keys[k].0 < |lines| {
      KeysAreLookups(b, off + 1, k);
    }
    FirstTextLines(b);
  }

  /** Setting a key on the flat lines is setting it in the tree. */
  lemma {:induction false} SetKeyIsPutKey(
      lines: seq<string>, s: Section, o: string, b: Doc, off: nat, base: nat, path: seq<string>, key: string,
      value: string)
    requires Sits(lines, s, o, b, off, base, path)
    ensures Spans(lines, s)
    ensures KeyDiffers(s, key, value) <==> Lookup(b, key) != Some(value)
    ensures Replaces(lines, AfterSetKey(lines, s, key, value), off, o, Flatten(b), Flatten(PutKey(o, b, key, value)))
  {
    hide Classify, KeysOf, IndentOf, Flatten, KeyLine, Lookup, SetRow, IndentInside, ChildIndent, Replaces,
         ChildrenOf, NameOf, Size, WellFormed;
    SitsSpans(lines, s, o, b, off, base, path);
    KeysAreLookups(b, off + 1, key);
    if Lookup(b, key) == Some(value) {
      RewriteNothing(lines, off, o, Flatten(b));
    } else if Lookup(b, key).Some? {
      SetRowLines(b, key, value);
      var p := KeyPos(b, key);
      RewriteOne(lines, off, o, Flatten(b), p, KeyLine(IndentOf(Flatten(b)[p]), key, value));
    } else {
      var line := KeyLine(ChildIndent(o, b), key, value);
      AppendLines(b, Row(line, End));
      OneLine(line);
      InsertLast(lines, off, o, Flatten(b), [line]);
    }
  }

  lemma {:induction false} RewriteNothing(lines: seq<string>, off: nat, o: string, body: seq<string>)
    requires off + 2 + |body| <= |lines| && lines[off] == o && lines[off + 1..off + 1 + |body|] == body
    ensures Replaces(lines, lines, off, o, body, body)
  {
    assert lines == lines[..off + 1] + body + lines[off + 1 + |body|..];
  }

  lemma {:induction false} RewriteOne(lines: seq<string>, off: nat, o: string, body: seq<string>, p: nat, line: string)
    requires off + 2 + |body| <= |lines| && lines[off] == o && lines[off + 1..off + 1 + |body|] == body && p < |body|
    ensures lines[off + 1 + p] == body[p]
    ensures Replaces(lines, lines[off + 1 + p := line], off, o, body, body[p := line])
  {
    var end := off + 1 + |body|;
    assert lines == lines[..off + 1] + body + lines[end..];
    assert lines[off + 1 + p := line] == lines[..off + 1] + body[p := line] + lines[end..];
  }

  lemma {:induction false} InsertLast(lines: seq<string>, off: nat, o: string, body: seq<string>, more: seq<string>)
    requires off + 2 + |body| <= |lines| && lines[off] == o && lines[off + 1..off + 1 + |body|] == body
    ensures var end := off + 1 + |body|;
            Replaces(lines, lines[..end] + more + lines[end..], off, o, body, body + more)
  {
    var end := off + 1 + |body|;
    assert lines[..end] == lines[..off + 1] + body;
    assert lines[..off + 1] + body + more == lines[..off + 1] + (body + more);
  }

  lemma {:induction false} OneLine(line: string)
    ensures Flatten(Row(line, End)) == [line]
  {
  }

  /** The lines inserted for a missing interface block. */
  function InterfaceLines(indent: string, link: nat): seq<string> {
    [OpenLine(indent, "interface"), KeyLine(indent + DEFAULT_INDENT, "linknumber", Decimal(link)), CloseLine(indent)]
  }

  lemma {:induction false} NewIfaceFlat(indent: string, link: nat)
    ensures Flatten(NewIface(indent, link)) == InterfaceLines(indent, link)
  {
    hide KeyLine, OpenLine, CloseLine, Decimal;
  }

  lemma {:induction false} InsertIsAppend(
      lines: seq<string>, s: Section, o: string, b: Doc, off: nat, base: nat, path: seq<string>, link: nat)
    requires Sits(lines, s, o, b, off, base, path)
    ensures Spans(lines, s)
    ensures Replaces(lines, lines[..s.end] + InterfaceLines(IndentInside(lines, s.start, s.end), link) + lines[s.end..],
                     off, o, Flatten(b), Flatten(Append(b, NewIface(ChildIndent(o, b), link))))
  {
    hide Classify, KeysOf, KeyLine, OpenLine, CloseLine, IndentInside, ChildIndent, Decimal, Append, Replaces,
         Flatten, ChildrenOf, NameOf,
         WellFormed, InterfaceLines, NewIface;
    SitsSpans(lines, s, o, b, off, base, path);
    var indent := ChildIndent(o, b);
    AppendLines(b, NewIface(indent, link));
    NewIfaceFlat(indent, link);
    InsertLast(lines, off, o, Flatten(b), InterfaceLines(indent, link));
  }

  lemma {:induction false} ReplacesUnique(
      all: seq<string>, x: seq<string>, y: seq<string>, p: nat, open: string, b: seq<string>, b': seq<string>)
    requires Replaces(all, x, p, open, b, b') && Replaces(all, y, p, open, b, b')
    ensures x == y
  {
  }

  /** Replacing a slice of the totem body is replacing that slice of the file. */
  lemma {:induction false} ReplacesNested(
      all: seq<string>, all': seq<string>, p: nat, o: string, b: seq<string>, b': seq<string>,
      q: nat, io: string, i: seq<string>, i': seq<string>)
    requires Replaces(all, all', p, o, b, b') && Replaces(b, b', q, io, i, i')
    ensures Replaces(all, all', p + 1 + q, io, i, i')
  {
    var head, tail := all[..p + 1], all[p + 1 + |b|..];
    assert all == head + b + tail;
    var n := p + 1 + q;
    assert all[n] == b[q];
    assert all[n + 1..n + 1 + |i|] == b[q + 1..q + 1 + |i|];
    assert all[..n + 1] == head + b[..q + 1];
    assert all[n + 1 + |i|..] == b[q + 1 + |i|..] + tail;
    assert all' == head + (b[..q + 1] + i' + b[q + 1 + |i|..]) + tail;
    assert all' == all[..n + 1] + i' + all[n + 1 + |i|..];
  }

  /** What one pass must do to a file. */
  ghost predicate PassResult(before: seq<string>, token: nat, r: Result<bool, EditError>, after: seq<string>) {
    match Scan(before)
    case Err(e) => r == Err(Unparsable(e)) && after == before
    case Ok(_) =>
      TreeOf(before).Some? &&
      var d := TreeOf(before).value;
      if TotemCount(d) != 1 then r == Err(TotemSectionCount(TotemCount(d))) && after == before
      else
        match NextFile(d, token)
        case None => r == Ok(false) && after == before
        case Some(e) => r == Ok(true) && after == Flatten(e)
  }

  /** What the parser found in an editable file: the totem section where the tree has it. */
  lemma {:induction false} TotemFound(d: Doc, lines: seq<string>, all: seq<Section>)
    requires WellFormed(d) && lines == Flatten(d) && all == SectionsOf(d, 0, 0, [])
    ensures |TotemSections(all, 0)| == TotemCount(d)
    ensures TotemCount(d) > 0 ==>
              var (o, b) := Totem(d);
              var (off, base) := TotemPos(d, 0, 0);
              && TotemSections(all, 0)[0] == base && base < |all|
              && Sits(lines, all[base], o, b, off, base, []) && Listed(all, b, off + 1, base + 1, ["totem"])
              && all[base].children == ChildrenOf(b, base + 1)
  {
    hide Classify, SectionsOf, KeysOf, NameOf, Totem, TotemPos, Flatten, TotemCount, WithTotem;
    TotemSectionsOf(d, 0, 0);
    if TotemCount(d) > 0 {
      assert all[0..0 + CountBlocks(d)] == all;
      TotemListed(all, d, 0, 0);
      WithTotemEffect(d, End);
      WithTotemLines(d, 0, 0, End);
    }
  }

  /** An edit of the totem body made on the lines is the edited file of the tree. */
  lemma {:induction false} TotemEdited(d: Doc, after: seq<string>, body: Doc)
    requires TotemCount(d) > 0
    requires Replaces(Flatten(d), after, TotemPos(d, 0, 0).0, Totem(d).0, Flatten(Totem(d).1), Flatten(body))
    ensures after == Flatten(WithTotem(d, body))
  {
    hide Classify, Flatten, Totem, TotemPos, Replaces, WithTotem, TotemCount, NameOf;
    WithTotemLines(d, 0, 0, body);
    ReplacesUnique(Flatten(d), after, Flatten(WithTotem(d, body)), TotemPos(d, 0, 0).0, Totem(d).0, Flatten(Totem(d).1), Flatten(body));
  }

  /** The parser's record of the interface block of `link`. */
  lemma {:induction false} IfaceFound(d: Doc, lines: seq<string>, all: seq<Section>, link: nat)
    requires WellFormed(d) && TotemCount(d) > 0 && lines == Flatten(d) && all == SectionsOf(d, 0, 0, [])
    ensures var b := Totem(d).1;
            var (off, base) := TotemPos(d, 0, 0);
            && base < |all| && (forall i :: 0 <= i < |all[base].children| ==> all[base].children[i] < |all|)
            && FindChild(all, all[base].children, link)
            == (if HasIface(b, link) then Some(IfacePos(b, off + 1, base + 1, link).1) else None)
            && (HasIface(b, link) ==>
                  var (io, ib) := Iface(b, link);
                  var (ioff, ibase) := IfacePos(b, off + 1, base + 1, link);
                  ibase < |all| && Sits(lines, all[ibase], io, ib, ioff, ibase, ["totem"]))
  {
    hide Classify, SectionsOf, KeysOf, NameOf, Totem, TotemPos, Flatten, IsIface, HasIface, IfacePos, Iface,
         FindChild, Listed, SectionOf, ChildrenOf;
    hide WellFormed, TotemCount, CountBlocks, SetIface, WithTotem, Replaces, Decimal;
    TotemFound(d, lines, all);
    var b := Totem(d).1;
    var (off, base) := TotemPos(d, 0, 0);
    ChildrenListed(all, b, off + 1, base + 1, ["totem"]);
    FindChildIsIface(all, b, off + 1, base + 1, ["totem"], link);
    if HasIface(b, link) {
      var (io, ib) := Iface(b, link);
      var ioff := IfacePos(b, off + 1, base + 1, link).0;
      IfacesAreFormed(b);
      SetIfaceLines(b, off + 1, base + 1, link, End);
      WithTotemLines(d, 0, 0, SetIface(b, link, End));
      ReplacesNested(lines, Flatten(WithTotem(d, SetIface(b, link, End))), off, Totem(d).0, Flatten(b),
                     Flatten(SetIface(b, link, End)), ioff - (off + 1), io, Flatten(ib), Flatten(End));
    }
  }

  /** An edit of an interface block made on the lines is the edited file of the tree. */
  lemma {:induction false} IfaceEdited(d: Doc, after: seq<string>, link: nat, body: Doc)
    requires TotemCount(d) > 0 && HasIface(Totem(d).1, link)
    requires var b := Totem(d).1;
             var (off, base) := TotemPos(d, 0, 0);
             var (io, ib) := Iface(b, link);
             Replaces(Flatten(d), after, IfacePos(b, off + 1, base + 1, link).0, io, Flatten(ib), Flatten(body))
    ensures after == Flatten(WithTotem(d, SetIface(Totem(d).1, link, body)))
  {
    hide Classify, Flatten, Totem, TotemPos, TotemCount, WithTotem, Replaces, IfacePos, Iface, HasIface, SetIface;
    var b := Totem(d).1;
    var (off, base) := TotemPos(d, 0, 0);
    var (io, ib) := Iface(b, link);
    var ioff := IfacePos(b, off + 1, base + 1, link).0;
    var b' := SetIface(b, link, body);
    SetIfaceLines(b, off + 1, base + 1, link, body);
    WithTotemLines(d, 0, 0, b');
    ReplacesNested(Flatten(d), Flatten(WithTotem(d, b')), off, Totem(d).0, Flatten(b), Flatten(b'), ioff - (off + 1), io, Flatten(ib), Flatten(body));
    ReplacesUnique(Flatten(d), after, Flatten(WithTotem(d, b')), ioff, io, Flatten(ib), Flatten(body));
  }

  // ----- the editor ---------------------------------------------------------------------

  class ConfEditor {
    var lines: seq<string>

    constructor (text: string)
      ensures lines == SplitLines(text)
    {
      lines := SplitLines(text);
    }

    /** Sets `key: value` directly inside the section. True when a line changed. */
    method SetKey(section: Section, key: string, value: string) returns (changed: bool)
      requires Spans(lines, section)
      modifies this
      ensures changed == KeyDiffers(section, key, value)
      ensures lines == AfterSetKey(old(lines), section, key, value)
    {
      if key in section.keys {
        var (index, current) := section.keys[key];
        if current == value {
          return false;
        }
        var indent := IndentOf(lines[index]);
        lines := lines[index := KeyLine(indent, key, value)];
        return true;
      }
      var indent := FindIndentInside(lines, section.start, section.end);
      lines := lines[..section.end] + [KeyLine(indent, key, value)] + lines[section.end..];
      return true;
    }

    /** Sets the first of `pairs` that is missing or different in a section. */
    method SetFirstKey(
        section: Section, pairs: Pairs, ghost o: string, ghost b: Doc, ghost off: nat, ghost base: nat,
        ghost path: seq<string>)
      returns (changed: bool)
      requires Sits(lines, section, o, b, off, base, path)
      modifies this
      ensures changed == NextKeys(o, b, pairs).Some?
      ensures !changed ==> lines == old(lines)
      ensures changed ==> Replaces(old(lines), lines, off, o, Flatten(b), Flatten(NextKeys(o, b, pairs).value))
    {
      hide Sits, Spans, AfterSetKey, PutKey, Lookup, Flatten, Replaces, KeyDiffers;
      var j := 0;
      assert pairs[0..] == pairs;
      while j < |pairs|
        invariant j <= |pairs| && lines == old(lines)
        invariant NextKeys(o, b, pairs) == NextKeys(o, b, pairs[j..])
      {
        assert pairs[j..][0] == pairs[j] && pairs[j..][1..] == pairs[j + 1..];
        var (key, value) := pairs[j];
        SetKeyIsPutKey(lines, section, o, b, off, base, path, key, value);
        var differs := SetKey(section, key, value);
        if differs {
          return true;
        }
        SameLines(old(lines), section, key, value);
        j := j + 1;
      }
      return false;
    }

    /** Makes the first edit one link still needs: its interface block, then the keys of it. */
    method EditLink(sections: seq<Section>, totem: Section, link: nat, pairs: Pairs, ghost d: Doc)
      returns (changed: bool)
      requires WellFormed(d) && TotemCount(d) > 0 && lines == Flatten(d) && sections == SectionsOf(d, 0, 0, [])
      requires TotemPos(d, 0, 0).1 < |sections| && totem == sections[TotemPos(d, 0, 0).1]
      modifies this
      ensures var (o, b) := Totem(d);
              match NextLink(o, b, link, pairs)
              case None => !changed && lines == old(lines)
              case Some(b') => changed && lines == Flatten(WithTotem(d, b'))
    {
      hide Classify, SectionsOf, Flatten, Totem, TotemPos, IfacePos, Iface, HasIface, SetIface, Replaces, NextKeys,
           Lookup, Listed, Spans, FindChild, ChildrenOf, WellFormed, Append, Sits, WithTotem, NewIface, InterfaceLines;
      ghost var o, b := Totem(d).0, Totem(d).1;
      ghost var off, base := TotemPos(d, 0, 0).0, TotemPos(d, 0, 0).1;
      TotemFound(d, lines, sections);
      IfaceFound(d, lines, sections, link);
      var found := FindInterface(sections, totem, link);
      if found == None {
        InsertIsAppend(lines, totem, o, b, off, base, [], link);
        SitsSpans(lines, totem, o, b, off, base, []);
        assert totem.start < totem.end < |lines| by { SpansBounds(lines, totem); }
        var inner := FindIndentInside(lines, totem.start, totem.end);
        lines := lines[..totem.end] + InterfaceLines(inner, link) + lines[totem.end..];
        TotemEdited(d, lines, Append(b, NewIface(ChildIndent(o, b), link)));
        return true;
      }
      ghost var io, ib := Iface(b, link).0, Iface(b, link).1;
      ghost var ioff, ibase := IfacePos(b, off + 1, base + 1, link).0, IfacePos(b, off + 1, base + 1, link).1;
      changed := SetFirstKey(sections[found.value], pairs, io, ib, ioff, ibase, ["totem"]);
      if changed {
        IfaceEdited(d, lines, link, NextKeys(io, ib, pairs).value);
      }
    }

    /** Makes the first missing edit in place; Ok(false) when the file already matches. */
    method NextEdit(token: nat) returns (r: Result<bool, EditError>)
      modifies this
      ensures PassResult(old(lines), token, r, lines)
    {
      hide Classify, SectionsOf, Flatten, Totem, TotemPos, Replaces, AfterSetKey, PutKey, Lookup, Listed, Spans,
           NextLink,
           KeyDiffers, ChildrenOf, Scan, Read, WellFormed, Decimal, Sits, WithTotem, Rings, LinksFrom, TotemSections;
      var parsed := Parse(lines);
      if parsed.Err? {
        return Err(Unparsable(parsed.error));
      }
      var sections := parsed.value;
      ghost var d, before := TreeOf(lines).value, lines;
      TreeLines(lines);
      TotemFound(d, lines, sections);
      var totems := TotemSections(sections, 0);
      if |totems| != 1 {
        return Err(TotemSectionCount(|totems|));
      }
      var totem := sections[totems[0]];
      ghost var o, b := Totem(d).0, Totem(d).1;
      ghost var off, base := TotemPos(d, 0, 0).0, TotemPos(d, 0, 0).1;
      SetKeyIsPutKey(lines, totem, o, b, off, base, [], "token", Decimal(token));
      var changed := SetKey(totem, "token", Decimal(token));
      if changed {
        TotemEdited(d, lines, PutKey(o, b, "token", Decimal(token)));
        return Ok(true);
      }
      SameLines(before, totem, "token", Decimal(token));
      var links := HeartbeatLinks(sections);
      SectionRingsOf(d, 0, 0);
      assert links == Links(d);
      var pairs := HeartbeatValues(token);
      var i := 0;
      assert links[0..] == links;
      while i < |links|
        invariant i <= |links| && lines == before
        invariant NextLinks(o, b, links, pairs) == NextLinks(o, b, links[i..], pairs)
      {
        assert links[i..][0] == links[i] && links[i..][1..] == links[i + 1..];
        changed := EditLink(sections, totem, links[i], pairs, d);
        if changed {
          return Ok(true);
        }
        i := i + 1;
      }
      return Ok(false);
    }

    /** Repeats the edit until nothing is missing, at most `2 + 4 * links` times. */
    method Converge(token: nat) returns (r: Result<nat, EditError>)
      modifies this
      ensures Scan(old(lines)).Err? ==> r == Err(Unparsable(Scan(old(lines)).error)) && lines == old(lines)
      ensures Scan(old(lines)).Ok? ==>
                TreeOf(old(lines)).Some? &&
                var d := TreeOf(old(lines)).value;
                if TotemCount(d) != 1 then r == Err(TotemSectionCount(TotemCount(d)))
                else r == Ok(Missing(d, token) + 1) && lines == Flatten(Configure(d, token))
    {
      hide Classify, SectionsOf, Flatten, Totem, Scan, Read, WellFormed, Configure, Missing, NextFile, Links,
           TotemCount, Rings, LinksFrom;
      var parsed := Parse(lines);
      if parsed.Err? {
        return Err(Unparsable(parsed.error));
      }
      ghost var d := TreeOf(lines).value;
      TreeLines(lines);
      var links := HeartbeatLinks(parsed.value);
      SectionRingsOf(d, 0, 0);
      assert links == Links(d) by { LinksUnfold(d); }
      if TotemCount(d) == 1 {
        MissingBound(d, token);
      }
      var bound := 2 + 4 * |links|;
      var passes := 0;
      ghost var e := d;
      while passes < bound
        invariant passes <= bound
        invariant TreeOf(lines) == Some(e) && WellFormed(e) && lines == Flatten(e)
        invariant TotemCount(d) == 1 ==> Editable(e) && Configure(e, token) == Configure(d, token)
        invariant TotemCount(d) == 1 ==> passes + Missing(e, token) == Missing(d, token)
        invariant TotemCount(d) != 1 ==> passes == 0 && e == d
      {
        ScanMatchesTree(lines);
        var step := NextEdit(token);
        if step.Err? {
          return Err(step.error);
        }
        NextFileEffect(e, token);
        passes := passes + 1;
        if !step.value {
          return Ok(passes);
        }
        e := NextFile(e, token).value;
        TreeRoundTrip(e);
      }
      return Err(NotConverged);
    }
  }

  lemma {:induction false} SameLines(lines: seq<string>, s: Section, key: string, value: string)
    requires Spans(lines, s) && !KeyDiffers(s, key, value)
    ensures AfterSetKey(lines, s, key, value) == lines
  {
  }

  lemma {:induction false} SpansBounds(lines: seq<string>, s: Section)
    requires Spans(lines, s)
    ensures s.start < s.end < |lines|
  {
  }

  lemma {:induction false} LinksUnfold(d: Doc)
    ensures Links(d) == LinksFrom(Rings(d))
  {
  }

  /** What editing a text must give. */
  function Configured(text: string, token: int): Result<string, EditError> {
    if !(TOKEN_MIN <= token <= TOKEN_MAX) then Err(TokenOutOfRange)
    else
      match Scan(SplitLines(text))
      case Err(e) => Err(Unparsable(e))
      case Ok(_) =>
        match TreeOf(SplitLines(text))
        case None => Err(NotConverged)
        case Some(d) =>
          if TotemCount(d) != 1 then Err(TotemSectionCount(TotemCount(d)))
          else Ok(Render(Flatten(Configure(d, token))))
  }

  /** Applies the heartbeat settings of a token to a text, or says why that is unsafe. The
      edit loop always converges. */
  method ApplyHeartbeat(text: string, token: int) returns (r: Result<string, EditError>)
    ensures r == Configured(text, token) && r != Err(NotConverged)
  {
    hide Classify, Scan, Read, SplitLines, Configure, Flatten, Render, TotemCount;
    if !(TOKEN_MIN <= token <= TOKEN_MAX) {
      return Err(TokenOutOfRange);
    }
    var editor := new ConfEditor(text);
    var passes := editor.Converge(token);
    if passes.Err? {
      return Err(passes.error);
    }
    r := Ok(Render(editor.lines));
  }
}
