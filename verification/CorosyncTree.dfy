/** A corosync.conf as a tree, the reference reading of a balanced file; and the section list
    that a one-pass stack parser must produce from it. */
module CorosyncTree {
  import opened Wrappers
  import opened CorosyncSyntax

  /** The lines of a file or of a section body, with each section's lines nested. */
  datatype Doc = End | Row(line: string, rest: Doc) | Block(open: string, body: Doc, close: string, rest: Doc)

  function Flatten(d: Doc): seq<string> {
    match d
    case End => []
    case Row(l, rest) => [l] + Flatten(rest)
    case Block(o, b, c, rest) => [o] + Flatten(b) + [c] + Flatten(rest)
  }

  function Size(d: Doc): (n: nat)
    ensures n == |Flatten(d)|
  {
    match d
    case End => 0
    case Row(_, rest) => 1 + Size(rest)
    case Block(_, b, _, rest) => 2 + Size(b) + Size(rest)
  }

  /** Every row is a plain line and every section starts and ends with a matching brace line. */
  predicate WellFormed(d: Doc) {
    match d
    case End => true
    case Row(l, rest) => !Classify(l).Open? && !Classify(l).Close? && WellFormed(rest)
    case Block(o, b, c, rest) =>
      Classify(o).Open? && Classify(c).Close? && WellFormed(b) && WellFormed(rest)
  }

  /** Reads items up to a closing brace line or the end; None when a section never closes. */
  function Read(lines: seq<string>): (r: Option<(Doc, seq<string>)>)
    ensures r.Some? ==> |r.value.1| <= |lines|
    decreases |lines|
  {
    if lines == [] then Some((End, []))
    else
      match Classify(lines[0])
      case Close => Some((End, lines))
      case Open(_) =>
        (match Read(lines[1..])
         case None => None
         case Some((body, rest)) =>
           if rest == [] then None
           else
             match Read(rest[1..])
             case None => None
             case Some((more, tail)) => Some((Block(lines[0], body, rest[0], more), tail)))
      case _ =>
        match Read(lines[1..])
        case None => None
        case Some((more, tail)) => Some((Row(lines[0], more), tail))
  }

  /** What is read and what is left are the lines, and reading stops only at a closing line. */
  lemma {:induction false} ReadLines(lines: seq<string>)
    requires Read(lines).Some?
    ensures var (d, tail) := Read(lines).value;
            WellFormed(d) && Flatten(d) + tail == lines && (tail != [] ==> Classify(tail[0]).Close?)
    decreases |lines|
  {
    hide Classify;
    if lines != [] && !Classify(lines[0]).Close? {
      ReadLines(lines[1..]);
      var (body, rest) := Read(lines[1..]).value;
      if Classify(lines[0]).Open? {
        ReadLines(rest[1..]);
        var (more, tail) := Read(rest[1..]).value;
        Regroup(lines, Flatten(body), rest, Flatten(more), tail);
      } else {
        Regroup(lines, [], lines[1..], Flatten(body), rest);
      }
    }
  }

  lemma {:induction false} Regroup(
      lines: seq<string>, body: seq<string>, rest: seq<string>, more: seq<string>, tail: seq<string>)
    requires lines != [] && body + rest == lines[1..]
    ensures body == [] && more + tail == rest ==> [lines[0]] + more + tail == lines
    ensures rest != [] && more + tail == rest[1..] ==> [lines[0]] + body + [rest[0]] + more + tail == lines
  {
    assert lines == [lines[0]] + lines[1..];
    if rest != [] {
      assert rest == [rest[0]] + rest[1..];
    }
  }

  /** The tree of a file with balanced braces. */
  function TreeOf(lines: seq<string>): Option<Doc> {
    match Read(lines)
    case None => None
    case Some((d, tail)) => if tail == [] then Some(d) else None
  }

  lemma {:induction false} TreeLines(lines: seq<string>)
    requires TreeOf(lines).Some?
    ensures Flatten(TreeOf(lines).value) == lines && WellFormed(TreeOf(lines).value)
  {
    ReadLines(lines);
    var (d, tail) := Read(lines).value;
    assert Flatten(d) + tail == Flatten(d);
  }

  lemma {:induction false} NothingThen(tail: seq<string>)
    ensures Flatten(End) + tail == tail && Size(End) == 0
  {
  }

  lemma {:induction false} RowThen(l: string, rest: Doc, tail: seq<string>)
    ensures Flatten(Row(l, rest)) + tail == [l] + (Flatten(rest) + tail) && Size(Row(l, rest)) == 1 + Size(rest)
    ensures ([l] + (Flatten(rest) + tail))[1..] == Flatten(rest) + tail
  {
  }

  lemma {:induction false} BlockThen(o: string, b: Doc, c: string, rest: Doc, tail: seq<string>)
    ensures Flatten(Block(o, b, c, rest)) + tail == [o] + (Flatten(b) + ([c] + (Flatten(rest) + tail)))
    ensures Size(Block(o, b, c, rest)) == 2 + Size(b) + Size(rest)
    ensures ([o] + (Flatten(b) + ([c] + (Flatten(rest) + tail))))[1..] == Flatten(b) + ([c] + (Flatten(rest) + tail))
    ensures ([c] + (Flatten(rest) + tail))[1..] == Flatten(rest) + tail
  {
  }

  lemma {:induction false} ReadFlatten(d: Doc, tail: seq<string>)
    requires WellFormed(d) && (tail != [] ==> Classify(tail[0]).Close?)
    ensures Read(Flatten(d) + tail) == Some((d, tail))
    decreases d
  {
    hide Classify, Flatten;
    match d {
      case End => NothingThen(tail);
      case Row(l, rest) =>
        RowThen(l, rest, tail);
        ReadFlatten(rest, tail);
      case Block(o, b, c, rest) =>
        BlockThen(o, b, c, rest, tail);
        ReadFlatten(b, [c] + (Flatten(rest) + tail));
        ReadFlatten(rest, tail);
    }
  }

  /** Reading what a tree flattens to gives the tree back, so a file has at most one tree. */
  lemma {:induction false} TreeRoundTrip(d: Doc)
    requires WellFormed(d)
    ensures TreeOf(Flatten(d)) == Some(d)
  {
    ReadFlatten(d, []);
    assert Flatten(d) + [] == Flatten(d);
  }

  // ----- the section list ---------------------------------------------------------------

  /** One section: its names from the outermost, its line span, the first value and line of
      each direct key, and its direct child sections as indices into the section list. */
  datatype Section = Section(
    name: string, path: seq<string>, start: nat, end: int, keys: map<string, (nat, string)>, children: seq<nat>)

  function NameOf(open: string): string {
    match Classify(open)
    case Open(n) => n
    case _ => ""
  }

  function CountBlocks(d: Doc): nat {
    match d
    case End => 0
    case Row(_, rest) => CountBlocks(rest)
    case Block(_, b, _, rest) => 1 + CountBlocks(b) + CountBlocks(rest)
  }

  /** The direct keys of a body that starts at line `off`; the first occurrence wins. */
  function KeysOf(d: Doc, off: nat): map<string, (nat, string)> {
    match d
    case End => map[]
    case Row(l, rest) =>
      (match Classify(l)
       case Key(k, v) => KeysOf(rest, off + 1)[k := (off, v)]
       case _ => KeysOf(rest, off + 1))
    case Block(_, b, _, rest) => KeysOf(rest, off + 2 + Size(b))
  }

  /** The direct child sections of a body whose first section has index `base`. */
  function ChildrenOf(d: Doc, base: nat): seq<nat> {
    match d
    case End => []
    case Row(_, rest) => ChildrenOf(rest, base)
    case Block(_, b, _, rest) => [base] + ChildrenOf(rest, base + 1 + CountBlocks(b))
  }

  function SectionOf(open: string, body: Doc, off: nat, base: nat, path: seq<string>): Section {
    var name := NameOf(open);
    Section(name, path + [name], off, off + 1 + Size(body), KeysOf(body, off + 1), ChildrenOf(body, base + 1))
  }

  /** Every section of a body at line `off`, outermost first in order of opening. */
  function SectionsOf(d: Doc, off: nat, base: nat, path: seq<string>): (r: seq<Section>)
    ensures |r| == CountBlocks(d)
  {
    match d
    case End => []
    case Row(_, rest) => SectionsOf(rest, off + 1, base, path)
    case Block(o, b, _, rest) =>
      [SectionOf(o, b, off, base, path)] + SectionsOf(b, off + 1, base + 1, path + [NameOf(o)])
      + SectionsOf(rest, off + 2 + Size(b), base + 1 + CountBlocks(b), path)
  }

  // ----- the one-pass parser ------------------------------------------------------------

  /** Why a file cannot be parsed. */
  datatype ParseError = StrayClose(line: nat) | Unclosed(name: string)

  /** The parser between two lines: the sections so far and the indices of the open ones. */
  datatype State = State(sections: seq<Section>, stack: seq<nat>)
  {
    ghost predicate Valid() { forall i :: 0 <= i < |stack| ==> stack[i] < |sections| }
  }

  /** A section begins: it joins its parent's children and becomes the innermost one. */
  function Opened(st: State, i: nat, name: string): (r: State)
    requires st.Valid()
    ensures r.Valid() && |r.sections| == |st.sections| + 1
  {
    var idx := |st.sections|;
    if st.stack == [] then
      State(st.sections + [Section(name, [name], i, -1, map[], [])], [idx])
    else
      var top := st.stack[|st.stack| - 1];
      var parent := st.sections[top];
      State(st.sections[top := parent.(children := parent.children + [idx])]
            + [Section(name, parent.path + [name], i, -1, map[], [])], st.stack + [idx])
  }

  function Step(st: State, i: nat, line: string): (r: Result<State, ParseError>)
    requires st.Valid()
    ensures r.Ok? ==> r.value.Valid()
    ensures r.Ok? ==> |r.value.sections| >= |st.sections|
  {
    hide Classify;
    match Classify(line)
    case Open(name) => Ok(Opened(st, i, name))
    case Close =>
      if st.stack == [] then Err(StrayClose(i))
      else
        var top := st.stack[|st.stack| - 1];
        Ok(State(st.sections[top := st.sections[top].(end := i)], st.stack[..|st.stack| - 1]))
    case Key(k, v) =>
      if st.stack == [] then Ok(st)
      else
        var top := st.stack[|st.stack| - 1];
        var sec := st.sections[top];
        if k in sec.keys then Ok(st)
        else Ok(State(st.sections[top := sec.(keys := sec.keys[k := (i, v)])], st.stack))
    case _ => Ok(st)
  }

  function Fold(st: State, lines: seq<string>, i: nat): (r: Result<State, ParseError>)
    requires st.Valid()
    ensures r.Ok? ==> r.value.Valid()
    decreases |lines|
  {
    hide Classify;
    if lines == [] then Ok(st)
    else
      match Step(st, i, lines[0])
      case Err(e) => Err(e)
      case Ok(next) => Fold(next, lines[1..], i + 1)
  }

  /** What the parser returns: every section, or the reason the braces do not balance. */
  function Scan(lines: seq<string>): Result<seq<Section>, ParseError> {
    match Fold(State([], []), lines, 0)
    case Err(e) => Err(e)
    case Ok(st) =>
      if st.stack == [] then Ok(st.sections) else Err(Unclosed(st.sections[st.stack[|st.stack| - 1]].name))
  }

  /** Adds keys and children to the innermost open section (a key already there stays) and
      new sections behind the others. */
  function Attach(st: State, keys: map<string, (nat, string)>, children: seq<nat>, more: seq<Section>): (r: State)
    requires st.Valid()
    ensures r.Valid() && r.stack == st.stack && |r.sections| == |st.sections| + |more|
  {
    if st.stack == [] then State(st.sections + more, [])
    else
      var top := st.stack[|st.stack| - 1];
      var sec := st.sections[top];
      State(st.sections[top := sec.(keys := keys + sec.keys, children := sec.children + children)] + more, st.stack)
  }

  function PathOf(st: State): seq<string>
    requires st.Valid()
  {
    if st.stack == [] then [] else st.sections[st.stack[|st.stack| - 1]].path
  }

  /** The parser state after reading a whole body from state `st`. */
  function Absorb(st: State, d: Doc, off: nat): (r: State)
    requires st.Valid()
    ensures r.Valid() && r.stack == st.stack && |r.sections| == |st.sections| + CountBlocks(d)
  {
    var base := |st.sections|;
    Attach(st, KeysOf(d, off), ChildrenOf(d, base), SectionsOf(d, off, base, PathOf(st)))
  }

  lemma {:induction false} AttachNothing(st: State)
    requires st.Valid()
    ensures Attach(st, map[], [], []) == st
  {
    if st.stack == [] {
      assert st.sections + [] == st.sections;
    } else {
      var top := st.stack[|st.stack| - 1];
      var sec := st.sections[top];
      assert map[] + sec.keys == sec.keys;
      assert sec.children + [] == sec.children;
      assert st.sections[top := sec] + [] == st.sections;
    }
  }

  lemma {:induction false} AttachTwice(
      st: State, k1: map<string, (nat, string)>, c1: seq<nat>, m1: seq<Section>,
      k2: map<string, (nat, string)>, c2: seq<nat>, m2: seq<Section>)
    requires st.Valid()
    ensures Attach(Attach(st, k1, c1, m1), k2, c2, m2) == Attach(st, k2 + k1, c1 + c2, m1 + m2)
    ensures PathOf(Attach(st, k1, c1, m1)) == PathOf(st)
  {
    var one := Attach(st, k1, c1, m1);
    var two, both := Attach(one, k2, c2, m2), Attach(st, k2 + k1, c1 + c2, m1 + m2);
    if st.stack != [] {
      var top := st.stack[|st.stack| - 1];
      var sec := st.sections[top];
      assert k2 + (k1 + sec.keys) == (k2 + k1) + sec.keys;
      assert sec.children + c1 + c2 == sec.children + (c1 + c2);
      assert two.sections[top] == both.sections[top];
    }
    assert two.sections == both.sections;
  }

  lemma {:induction false} StepRow(st: State, l: string, off: nat)
    requires st.Valid() && !Classify(l).Open? && !Classify(l).Close?
    ensures Step(st, off, l) == Ok(Attach(st, KeysOf(Row(l, End), off), [], []))
  {
    hide Classify, Attach;
    AttachNothing(st);
    if Classify(l).Key? {
      var Key(k, v) := Classify(l);
      assert KeysOf(Row(l, End), off) == map[k := (off, v)];
      AttachKey(st, k, (off, v));
    }
  }

  lemma {:induction false} AttachKey(st: State, k: string, iv: (nat, string))
    requires st.Valid()
    ensures Attach(st, map[k := iv], [], [])
         == if st.stack == [] then st
            else
              var top := st.stack[|st.stack| - 1];
              var sec := st.sections[top];
              if k in sec.keys then st
              else State(st.sections[top := sec.(keys := sec.keys[k := iv])], st.stack)
  {
    AttachNothing(st);
    if st.stack == [] {
      assert st.sections + [] == st.sections;
    } else {
      var top := st.stack[|st.stack| - 1];
      var sec := st.sections[top];
      var keys := map[k := iv] + sec.keys;
      assert keys == if k in sec.keys then sec.keys else sec.keys[k := iv];
      assert sec.children + [] == sec.children;
      var sec' := sec.(keys := keys, children := sec.children + []);
      assert st.sections[top := sec'] + [] == st.sections[top := sec'];
      assert k in sec.keys ==> sec' == sec && st.sections[top := sec'] == st.sections;
    }
  }

  lemma {:induction false} AbsorbRow(st: State, l: string, rest: Doc, off: nat)
    requires st.Valid() && !Classify(l).Open? && !Classify(l).Close?
    ensures Step(st, off, l).Ok?
    ensures Absorb(Step(st, off, l).value, rest, off + 1) == Absorb(st, Row(l, rest), off)
  {
    hide Classify, Attach, Step;
    var keys := KeysOf(Row(l, End), off);
    StepRow(st, l, off);
    var base := |st.sections|;
    AttachTwice(st, keys, [], [], KeysOf(rest, off + 1), ChildrenOf(rest, base), SectionsOf(rest, off + 1, base, PathOf(st)));
    assert KeysOf(rest, off + 1) + keys == KeysOf(Row(l, rest), off);
    assert [] + ChildrenOf(rest, base) == ChildrenOf(Row(l, rest), base);
    assert [] + SectionsOf(rest, off + 1, base, PathOf(st)) == SectionsOf(Row(l, rest), off, base, PathOf(st));
  }

  /** The state after a section's opening line, its body and its closing line. */
  lemma {:induction false} StepBlock(st: State, o: string, b: Doc, c: string, off: nat)
    requires st.Valid() && Classify(o).Open? && Classify(c).Close?
    ensures Step(st, off, o).Ok?
    ensures var inner := Absorb(Step(st, off, o).value, b, off + 1);
            var base := |st.sections|;
            Step(inner, off + 1 + Size(b), c)
            == Ok(Attach(st, map[], [base], [SectionOf(o, b, off, base, PathOf(st))]
                         + SectionsOf(b, off + 1, base + 1, PathOf(st) + [NameOf(o)])))
  {
    hide Classify, SectionsOf, KeysOf, ChildrenOf, CountBlocks, Attach, Step, Absorb;
    var base, path, name := |st.sections|, PathOf(st), NameOf(o);
    BeginSection(st, off, o);
    var outer := Attach(st, map[], [base], []);
    var open := Section(name, path + [name], off, -1, map[], []);
    var body := SectionsOf(b, off + 1, base + 1, path + [name]);
    var sec := SectionOf(o, b, off, base, path);
    FillSection(outer.sections, open, st.stack, b, off + 1);
    CloseSection(outer.sections, sec.(end := -1), body, st.stack, off + 1 + Size(b), c);
    AttachTwice(st, map[], [base], [], map[], [], [sec] + body);
    AttachMore(outer, [sec] + body);
    var none: map<string, (nat, string)> := map[];
    assert none + none == none && [base] + [] == [base];
    assert [] + ([sec] + body) == [sec] + body;
  }

  /** Reading a body fills in the section just begun. */
  lemma {:induction false} FillSection(before: seq<Section>, open: Section, stack: seq<nat>, b: Doc, off: nat)
    requires forall i :: 0 <= i < |stack| ==> stack[i] < |before|
    requires open.keys == map[] && open.children == []
    ensures var base := |before|;
            var st := State(before + [open], stack + [base]);
            st.Valid()
            && Absorb(st, b, off)
            == State(before + ([open.(keys := KeysOf(b, off), children := ChildrenOf(b, base + 1))]
                               + SectionsOf(b, off, base + 1, open.path)), stack + [base])
  {
    hide SectionsOf, KeysOf, ChildrenOf, CountBlocks;
    var base := |before|;
    var st := State(before + [open], stack + [base]);
    assert st.stack != [] && st.stack[|st.stack| - 1] == base && st.sections[base] == open;
    var keys, kids := KeysOf(b, off), ChildrenOf(b, base + 1);
    assert keys + map[] == keys && [] + kids == kids;
    var filled := open.(keys := keys, children := kids);
    assert (before + [open])[base := filled] == before + [filled];
  }

  lemma {:induction false} CloseSection(
      before: seq<Section>, filled: Section, body: seq<Section>, stack: seq<nat>, i: nat, c: string)
    requires forall k :: 0 <= k < |stack| ==> stack[k] < |before|
    requires Classify(c).Close?
    ensures var st := State(before + ([filled] + body), stack + [|before|]);
            st.Valid() && Step(st, i, c) == Ok(State(before + ([filled.(end := i)] + body), stack))
  {
    hide Classify;
    var base := |before|;
    var st := State(before + ([filled] + body), stack + [base]);
    assert st.stack[|st.stack| - 1] == base && st.sections[base] == filled;
    assert st.stack[..|st.stack| - 1] == stack;
    assert st.sections[base := filled.(end := i)] == before + ([filled.(end := i)] + body);
  }

  lemma {:induction false} AttachMore(st: State, more: seq<Section>)
    requires st.Valid()
    ensures Attach(st, map[], [], more) == State(st.sections + more, st.stack)
  {
    AttachNothing(st);
    if st.stack != [] {
      var top := st.stack[|st.stack| - 1];
      var sec := st.sections[top];
      assert map[] + sec.keys == sec.keys;
      assert sec.children + [] == sec.children;
      assert st.sections[top := sec] == st.sections;
    }
  }

  lemma {:induction false} BeginSection(st: State, off: nat, o: string)
    requires st.Valid() && Classify(o).Open?
    ensures Step(st, off, o)
         == Ok(State(Attach(st, map[], [|st.sections|], []).sections
                     + [Section(NameOf(o), PathOf(st) + [NameOf(o)], off, -1, map[], [])], st.stack + [|st.sections|]))
  {
    hide Classify;
    if st.stack == [] {
      assert st.sections + [] == st.sections;
      assert [] + [NameOf(o)] == [NameOf(o)];
      assert [] + [|st.sections|] == [|st.sections|];
    } else {
      var top := st.stack[|st.stack| - 1];
      var sec := st.sections[top];
      assert map[] + sec.keys == sec.keys;
      var sec' := sec.(children := sec.children + [|st.sections|]);
      assert st.sections[top := sec'] + [] == st.sections[top := sec'];
    }
  }

  lemma {:induction false} AbsorbBlock(st: State, o: string, b: Doc, c: string, rest: Doc, off: nat)
    requires st.Valid() && Classify(o).Open? && Classify(c).Close?
    ensures Step(st, off, o).Ok?
    ensures var inner := Absorb(Step(st, off, o).value, b, off + 1);
            var closed := Step(inner, off + 1 + Size(b), c);
            closed.Ok? && |closed.value.stack| == |st.stack|
            && Absorb(closed.value, rest, off + 2 + Size(b)) == Absorb(st, Block(o, b, c, rest), off)
  {
    hide Classify, Attach, Step, Absorb, SectionOf, SectionsOf;
    StepBlock(st, o, b, c, off);
    AfterBlock(st, o, b, c, rest, off);
  }

  lemma {:induction false} AfterBlock(st: State, o: string, b: Doc, c: string, rest: Doc, off: nat)
    requires st.Valid()
    ensures var base := |st.sections|;
            var head := [SectionOf(o, b, off, base, PathOf(st))] + SectionsOf(b, off + 1, base + 1, PathOf(st) + [NameOf(o)]);
            Absorb(Attach(st, map[], [base], head), rest, off + 2 + Size(b)) == Absorb(st, Block(o, b, c, rest), off)
  {
    hide Attach, SectionOf, PathOf, NameOf, KeysOf, ChildrenOf, SectionsOf;
    var base, path := |st.sections|, PathOf(st);
    var head := [SectionOf(o, b, off, base, path)] + SectionsOf(b, off + 1, base + 1, path + [NameOf(o)]);
    var base', off' := base + 1 + CountBlocks(b), off + 2 + Size(b);
    var keys := KeysOf(rest, off');
    AttachTwice(st, map[], [base], head, keys, ChildrenOf(rest, base'), SectionsOf(rest, off', base', path));
    assert keys + map[] == keys;
    UnfoldBlock(o, b, c, rest, off, base, path);
  }

  lemma {:induction false} UnfoldBlock(o: string, b: Doc, c: string, rest: Doc, off: nat, base: nat, path: seq<string>)
    ensures var base', off' := base + 1 + CountBlocks(b), off + 2 + Size(b);
            var d := Block(o, b, c, rest);
            && KeysOf(d, off) == KeysOf(rest, off')
            && ChildrenOf(d, base) == [base] + ChildrenOf(rest, base')
            && SectionsOf(d, off, base, path)
            == [SectionOf(o, b, off, base, path)] + SectionsOf(b, off + 1, base + 1, path + [NameOf(o)])
               + SectionsOf(rest, off', base', path)
  {
    hide *;
    UnfoldKeys(o, b, c, rest, off);
    UnfoldChildren(o, b, c, rest, base);
    UnfoldSections(o, b, c, rest, off, base, path);
  }

  lemma {:induction false} UnfoldKeys(o: string, b: Doc, c: string, rest: Doc, off: nat)
    ensures KeysOf(Block(o, b, c, rest), off) == KeysOf(rest, off + 2 + Size(b))
  {
    hide Classify, Size;
  }

  lemma {:induction false} UnfoldChildren(o: string, b: Doc, c: string, rest: Doc, base: nat)
    ensures ChildrenOf(Block(o, b, c, rest), base) == [base] + ChildrenOf(rest, base + 1 + CountBlocks(b))
  {
    hide CountBlocks;
  }

  lemma {:induction false} UnfoldSections(o: string, b: Doc, c: string, rest: Doc, off: nat, base: nat, path: seq<string>)
    ensures SectionsOf(Block(o, b, c, rest), off, base, path)
         == [SectionOf(o, b, off, base, path)] + SectionsOf(b, off + 1, base + 1, path + [NameOf(o)])
            + SectionsOf(rest, off + 2 + Size(b), base + 1 + CountBlocks(b), path)
  {
    hide Classify, SectionOf, NameOf, Size, CountBlocks;
  }

  lemma {:induction false} AbsorbEnd(st: State, off: nat)
    requires st.Valid()
    ensures Absorb(st, End, off) == st
  {
    AttachNothing(st);
  }

  lemma {:induction false} FoldCons(st: State, line: string, tail: seq<string>, i: nat)
    requires st.Valid()
    ensures Fold(st, [line] + tail, i)
         == match Step(st, i, line)
            case Err(e) => Err(e)
            case Ok(next) => Fold(next, tail, i + 1)
  {
    hide Step;
    assert ([line] + tail)[1..] == tail;
  }

  /** The parser absorbs the lines of a body and goes on with what follows it. */
  lemma {:induction false} FoldBody(st: State, d: Doc, tail: seq<string>, off: nat)
    requires st.Valid() && WellFormed(d)
    ensures Fold(st, Flatten(d) + tail, off) == Fold(Absorb(st, d, off), tail, off + Size(d))
    decreases d
  {
    hide Classify, Absorb, Step, Fold, Flatten, Size, KeysOf, CountBlocks;
    match d {
      case End =>
        NothingThen(tail);
        AbsorbEnd(st, off);
      case Row(l, rest) =>
        RowThen(l, rest, tail);
        AbsorbRow(st, l, rest, off);
        FoldCons(st, l, Flatten(rest) + tail, off);
        FoldBody(Step(st, off, l).value, rest, tail, off + 1);
      case Block(o, b, c, rest) =>
        var after := Flatten(rest) + tail;
        BlockThen(o, b, c, rest, tail);
        AbsorbBlock(st, o, b, c, rest, off);
        var begun := Step(st, off, o).value;
        FoldCons(st, o, Flatten(b) + ([c] + after), off);
        FoldBody(begun, b, [c] + after, off + 1);
        var inner := Absorb(begun, b, off + 1);
        FoldCons(inner, c, after, off + 1 + Size(b));
        FoldBody(Step(inner, off + 1 + Size(b), c).value, rest, tail, off + 2 + Size(b));
    }
  }

  lemma {:induction false} ReadNone(lines: seq<string>)
    requires Read(lines).None?
    ensures lines != [] && !Classify(lines[0]).Close?
    ensures Read(lines[1..]).None?
            || (Classify(lines[0]).Open? && (Read(lines[1..]).value.1 == [] || Read(Read(lines[1..]).value.1[1..]).None?))
  {
    hide Classify;
  }

  /** A section that never closes leaves the parser deeper than it started. */
  lemma {:induction false} FoldUnclosed(st: State, lines: seq<string>, off: nat)
    requires st.Valid() && Read(lines).None?
    ensures Fold(st, lines, off).Ok? && |Fold(st, lines, off).value.stack| > |st.stack|
    decreases |lines|
  {
    hide Classify, Absorb, Fold, Attach, Step, SectionOf, SectionsOf, KeysOf, Read, Size, CountBlocks;
    ReadNone(lines);
    var first := lines[0];
    assert lines == [first] + lines[1..];
    FoldCons(st, first, lines[1..], off);
    if Classify(first).Open? {
      BeginSection(st, off, first);
      var begun := Step(st, off, first).value;
      if Read(lines[1..]).None? {
        FoldUnclosed(begun, lines[1..], off + 1);
      } else {
        ReadLines(lines[1..]);
        var (body, rest) := Read(lines[1..]).value;
        var inner := Absorb(begun, body, off + 1);
        FoldBody(begun, body, rest, off + 1);
        if rest == [] {
          FoldNothing(inner, off + 1 + Size(body));
        } else {
          StepBlock(st, first, body, rest[0], off);
          assert rest == [rest[0]] + rest[1..];
          FoldCons(inner, rest[0], rest[1..], off + 1 + Size(body));
          FoldUnclosed(Step(inner, off + 1 + Size(body), rest[0]).value, rest[1..], off + 2 + Size(body));
        }
      }
    } else {
      StepRow(st, first, off);
      FoldUnclosed(Step(st, off, first).value, lines[1..], off + 1);
    }
  }

  lemma {:induction false} FoldNothing(st: State, i: nat)
    requires st.Valid()
    ensures Fold(st, [], i) == Ok(st)
  {
  }

  /** The one-pass parser agrees with the tree: it succeeds on exactly the balanced files,
      and its sections are the sections of the tree. */
  lemma {:induction false} ScanMatchesTree(lines: seq<string>)
    ensures Scan(lines).Ok? <==> TreeOf(lines).Some?
    ensures Scan(lines).Ok? ==> Scan(lines).value == SectionsOf(TreeOf(lines).value, 0, 0, [])
  {
    hide Classify, Fold, Absorb, SectionsOf;
    var st := State([], []);
    match Read(lines) {
      case None => FoldUnclosed(st, lines, 0);
      case Some((d, tail)) =>
        ReadLines(lines);
        FoldBody(st, d, tail, 0);
        var done := Absorb(st, d, 0);
        if tail == [] {
          FoldNothing(done, Size(d));
          AbsorbAtTop(d);
        } else {
          assert tail == [tail[0]] + tail[1..];
          FoldCons(done, tail[0], tail[1..], Size(d));
        }
    }
  }

  lemma {:induction false} AbsorbAtTop(d: Doc)
    ensures Absorb(State([], []), d, 0) == State(SectionsOf(d, 0, 0, []), [])
  {
    hide Classify, SectionsOf, KeysOf, ChildrenOf, CountBlocks;
    assert [] + SectionsOf(d, 0, 0, []) == SectionsOf(d, 0, 0, []);
  }
}
