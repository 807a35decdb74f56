/** What the configured file means, and how configuring composes: it is settled, it is
    idempotent on texts, and of two tokens the last one wins. */
module CorosyncLaws {
  import opened Wrappers
  import opened Text
  import opened CorosyncSyntax
  import opened CorosyncTree
  import opened CorosyncEdit
  import opened CorosyncConfig

  // ----- the same configuration ---------------------------------------------------------

  /** Two trees that read alike, line by line. */
  ghost predicate Same(d: Doc, e: Doc) {
    match (d, e)
    case (End, End) => true
    case (Row(l, r), Row(m, s)) => Classify(l) == Classify(m) && Same(r, s)
    case (Block(o, b, c, r), Block(p, a, x, s)) =>
      Classify(o) == Classify(p) && Classify(c) == Classify(x) && Same(b, a) && Same(r, s)
    case _ => false
  }

  lemma {:induction false} SameRefl(d: Doc)
    ensures Same(d, d)
    decreases d
  {
    hide Classify;
    match d {
      case End =>
      case Row(_, r) => SameRefl(r);
      case Block(_, b, _, r) => SameRefl(b); SameRefl(r);
    }
  }

  lemma {:induction false} SameTrans(d: Doc, e: Doc, f: Doc)
    requires Same(d, e) && Same(e, f)
    ensures Same(d, f)
    decreases d
  {
    hide Classify;
    match d {
      case End =>
      case Row(_, r) => SameTrans(r, e.rest, f.rest);
      case Block(_, b, _, r) =>
        SameTrans(b, e.body, f.body);
        SameTrans(r, e.rest, f.rest);
    }
  }

  lemma {:induction false} SameLookup(d: Doc, e: Doc, key: string)
    requires Same(d, e)
    ensures Lookup(d, key) == Lookup(e, key)
    decreases d
  {
    hide Classify;
    match d {
      case End =>
      case Row(_, r) => SameLookup(r, e.rest, key);
      case Block(_, _, _, r) => SameLookup(r, e.rest, key);
    }
  }

  lemma {:induction false} SameIface(d: Doc, e: Doc, link: nat)
    requires Same(d, e)
    ensures HasIface(d, link) == HasIface(e, link)
    ensures HasIface(d, link) ==> Same(Iface(d, link).1, Iface(e, link).1)
    decreases d
  {
    hide Classify, Decimal;
    match d {
      case End =>
      case Row(_, r) => SameIface(r, e.rest, link);
      case Block(_, b, _, r) =>
        SameLookup(b, e.body, "linknumber");
        SameIface(r, e.rest, link);
    }
  }

  lemma {:induction false} SameSetRow(d: Doc, e: Doc, key: string, value: string)
    requires Same(d, e) && IsName(key) && Trimmed(value)
    ensures Same(SetRow(d, key, value), SetRow(e, key, value))
    decreases d
  {
    hide Classify, KeyLine, IndentOf, IsName, Trimmed;
    match d {
      case End =>
      case Row(l, r) =>
        KeyLineRead(IndentOf(l), key, value);
        KeyLineRead(IndentOf(e.line), key, value);
        SameSetRow(r, e.rest, key, value);
      case Block(_, _, _, r) => SameSetRow(r, e.rest, key, value);
    }
  }

  lemma {:induction false} SameAppend(d: Doc, e: Doc, f: Doc, g: Doc)
    requires Same(d, e) && Same(f, g)
    ensures Same(Append(d, f), Append(e, g))
    decreases d
  {
    hide Classify;
    match d {
      case End =>
      case Row(_, r) => SameAppend(r, e.rest, f, g);
      case Block(_, _, _, r) => SameAppend(r, e.rest, f, g);
    }
  }

  lemma {:induction false} SameKeyRow(i: string, j: string, key: string, value: string)
    requires AllSpace(i) && AllSpace(j) && IsName(key) && Trimmed(value)
    ensures Same(Row(KeyLine(i, key, value), End), Row(KeyLine(j, key, value), End))
  {
    hide Classify, KeyLine, IsName, Trimmed, AllSpace;
    KeyLineRead(i, key, value);
    KeyLineRead(j, key, value);
    assert Same(End, End);
  }

  lemma {:induction false} SamePutKey(o: string, d: Doc, p: string, e: Doc, key: string, value: string)
    requires Same(d, e) && IsName(key) && Trimmed(value)
    ensures Same(PutKey(o, d, key, value), PutKey(p, e, key, value))
  {
    hide Classify, Same, SetRow, Append, KeyLine, Lookup, ChildIndent, IsName, Trimmed, AllSpace;
    SameLookup(d, e, key);
    SameSetRow(d, e, key, value);
    SameKeyRow(ChildIndent(o, d), ChildIndent(p, e), key, value);
    SameAppend(d, e, Row(KeyLine(ChildIndent(o, d), key, value), End), Row(KeyLine(ChildIndent(p, e), key, value), End));
  }

  lemma {:induction false} SamePutAll(o: string, d: Doc, p: string, e: Doc, pairs: Pairs)
    requires Same(d, e) && Writable(pairs)
    ensures Same(PutAll(o, d, pairs), PutAll(p, e, pairs))
    decreases |pairs|
  {
    hide Classify, Same, PutKey, IsName, Trimmed;
    if pairs != [] {
      SamePutKey(o, d, p, e, pairs[0].0, pairs[0].1);
      SamePutAll(o, PutKey(o, d, pairs[0].0, pairs[0].1), p, PutKey(p, e, pairs[0].0, pairs[0].1), pairs[1..]);
    }
  }

  lemma {:induction false} SameSetIface(d: Doc, e: Doc, link: nat, x: Doc, y: Doc)
    requires Same(d, e) && Same(x, y)
    ensures Same(SetIface(d, link, x), SetIface(e, link, y))
    decreases d
  {
    hide Classify, Decimal;
    match d {
      case End =>
      case Row(_, r) => SameSetIface(r, e.rest, link, x, y);
      case Block(_, b, _, r) =>
        SameLookup(b, e.body, "linknumber");
        SameSetIface(r, e.rest, link, x, y);
    }
  }

  lemma {:induction false} SameNewIface(i: string, j: string, link: nat)
    requires AllSpace(i) && AllSpace(j)
    ensures Same(NewIface(i, link), NewIface(j, link))
  {
    hide Classify, KeyLine, OpenLine, CloseLine, Decimal;
    NewIfaceLines(i, link);
    NewIfaceLines(j, link);
    assert Same(End, End);
    var r, s := Row(KeyLine(i + DEFAULT_INDENT, "linknumber", Decimal(link)), End), Row(KeyLine(j + DEFAULT_INDENT, "linknumber", Decimal(link)), End);
    assert Same(r, s);
  }

  lemma {:induction false} SameEnsure(o: string, d: Doc, e: Doc, link: nat)
    requires Same(d, e)
    ensures Same(EnsureIface(o, d, link), EnsureIface(o, e, link))
    ensures HasIface(EnsureIface(o, d, link), link)
  {
    hide Classify, Same, Append, NewIface, HasIface, Iface, ChildIndent, AllSpace;
    SameIface(d, e, link);
    SameNewIface(ChildIndent(o, d), ChildIndent(o, e), link);
    SameAppend(d, e, NewIface(ChildIndent(o, d), link), NewIface(ChildIndent(o, e), link));
    NewIfaceEffect(ChildIndent(o, d), link);
    AppendEffect(d, NewIface(ChildIndent(o, d), link));
  }

  lemma {:induction false} SameSetLink(o: string, d: Doc, e: Doc, link: nat, pairs: Pairs)
    requires Same(d, e) && Writable(pairs)
    ensures Same(SetLink(o, d, link, pairs), SetLink(o, e, link, pairs))
  {
    hide Classify, Same, EnsureIface, SetIface, HasIface, Iface, PutAll, Writable;
    SameEnsure(o, d, e, link);
    var d', e' := EnsureIface(o, d, link), EnsureIface(o, e, link);
    SameIface(d', e', link);
    SamePutAll(Iface(d', link).0, Iface(d', link).1, Iface(e', link).0, Iface(e', link).1, pairs);
    SameSetIface(d', e', link, PutAll(Iface(d', link).0, Iface(d', link).1, pairs), PutAll(Iface(e', link).0, Iface(e', link).1, pairs));
  }

  lemma {:induction false} SameSetLinks(o: string, d: Doc, e: Doc, links: seq<nat>, pairs: Pairs)
    requires Same(d, e) && Writable(pairs)
    ensures Same(SetLinks(o, d, links, pairs), SetLinks(o, e, links, pairs))
    decreases |links|
  {
    hide Classify, Same, SetLink, Writable;
    if links != [] {
      SameSetLink(o, d, e, links[0], pairs);
      SameSetLinks(o, SetLink(o, d, links[0], pairs), SetLink(o, e, links[0], pairs), links[1..], pairs);
    }
  }

  // ----- writing a key twice, and in either order ---------------------------------------

  lemma {:induction false} SetRowTwice(d: Doc, key: string, v: string, w: string)
    requires IsName(key) && Trimmed(v) && Trimmed(w)
    ensures Same(SetRow(SetRow(d, key, v), key, w), SetRow(d, key, w))
    ensures Lookup(d, key) == Some(w) ==> Same(SetRow(SetRow(d, key, v), key, w), d)
    decreases d
  {
    hide Classify, KeyLine, IndentOf, IsName, Trimmed;
    match d {
      case End =>
      case Row(l, r) =>
        KeyLineRead(IndentOf(l), key, v);
        KeyLineRead(IndentOf(l), key, w);
        KeyLineRead(IndentOf(KeyLine(IndentOf(l), key, v)), key, w);
        SameRefl(r);
        SetRowTwice(r, key, v, w);
      case Block(_, b, _, r) =>
        SameRefl(b);
        SetRowTwice(r, key, v, w);
    }
  }

  lemma {:induction false} SetRowAppended(d: Doc, i: string, key: string, v: string, w: string)
    requires Lookup(d, key).None? && AllSpace(i) && IsName(key) && Trimmed(v) && Trimmed(w)
    ensures Same(SetRow(Append(d, Row(KeyLine(i, key, v), End)), key, w), Append(d, Row(KeyLine(i, key, w), End)))
    decreases d
  {
    hide Classify, KeyLine, IndentOf, IsName, Trimmed, AllSpace;
    match d {
      case End =>
        KeyLineRead(i, key, v);
        KeyLineRead(i, key, w);
        KeyLineRead(IndentOf(KeyLine(i, key, v)), key, w);
        assert Same(End, End);
      case Row(l, r) => SetRowAppended(r, i, key, v, w);
      case Block(_, b, _, r) =>
        SameRefl(b);
        SetRowAppended(r, i, key, v, w);
    }
  }

  /** The last value written to a key wins. */
  lemma {:induction false} PutKeyTwice(o: string, d: Doc, key: string, v: string, w: string)
    requires WellFormed(d) && IsName(key) && Trimmed(v) && Trimmed(w)
    ensures Same(PutKey(o, PutKey(o, d, key, v), key, w), PutKey(o, d, key, w))
  {
    hide Classify, Same, SetRow, Append, KeyLine, Lookup, ChildIndent, IsName, Trimmed, AllSpace, WellFormed;
    PutKeyEffect(o, d, key, v);
    SameRefl(PutKey(o, d, key, w));
    SameRefl(d);
    if v != w {
      if Lookup(d, key).Some? {
        SetRowTwice(d, key, v, w);
        SameRefl(SetRow(d, key, w));
      } else {
        SetRowAppended(d, ChildIndent(o, d), key, v, w);
      }
    }
  }

  lemma {:induction false} SetRowSwap(d: Doc, k: string, v: string, k': string, v': string)
    requires k != k' && IsName(k) && IsName(k') && Trimmed(v) && Trimmed(v')
    ensures SetRow(SetRow(d, k, v), k', v') == SetRow(SetRow(d, k', v'), k, v)
    decreases d
  {
    hide Classify, KeyLine, IndentOf, IsName, Trimmed;
    match d {
      case End =>
      case Row(l, r) =>
        KeyLineRead(IndentOf(l), k, v);
        KeyLineRead(IndentOf(l), k', v');
        SetRowSwap(r, k, v, k', v');
      case Block(_, _, _, r) => SetRowSwap(r, k, v, k', v');
    }
  }

  lemma {:induction false} SetRowBeforeAppend(d: Doc, e: Doc, k: string, v: string)
    requires Lookup(d, k).Some?
    ensures SetRow(Append(d, e), k, v) == Append(SetRow(d, k, v), e)
    decreases d
  {
    hide Classify, KeyLine, IndentOf;
    match d {
      case Row(l, r) =>
        if Classify(l).Key? && Classify(l).key == k {
        } else {
          SetRowBeforeAppend(r, e, k, v);
        }
      case Block(_, _, _, r) => SetRowBeforeAppend(r, e, k, v);
    }
  }

  /** Keys written to different names do not disturb each other, once the later one exists. */
  lemma {:induction false} PutKeySwap(o: string, d: Doc, k: string, v: string, k': string, v': string)
    requires WellFormed(d) && k != k' && IsName(k) && IsName(k') && Trimmed(v) && Trimmed(v') && Lookup(d, k).Some?
    ensures Same(PutKey(o, PutKey(o, d, k', v'), k, v), PutKey(o, PutKey(o, d, k, v), k', v'))
  {
    hide Classify, Same, SetRow, Append, KeyLine, Lookup, ChildIndent, IsName, Trimmed, AllSpace, WellFormed;
    PutKeyEffect(o, d, k', v');
    PutKeyEffect(o, d, k, v);
    var x, y := PutKey(o, d, k', v'), PutKey(o, d, k, v);
    SameRefl(x);
    SameRefl(PutKey(o, y, k', v'));
    if Lookup(d, k) != Some(v) {
      if Lookup(d, k').Some? {
        SetRowSwap(d, k, v, k', v');
      } else {
        var r := Row(KeyLine(ChildIndent(o, d), k', v'), End);
        var s := Row(KeyLine(ChildIndent(o, y), k', v'), End);
        SetRowBeforeAppend(d, r, k, v);
        SameRefl(y);
        SameKeyRow(ChildIndent(o, d), ChildIndent(o, y), k', v');
        SameAppend(y, y, r, s);
      }
    }
  }

  // ----- writing all pairs twice --------------------------------------------------------

  /** Two lists of pairs over the same keys in the same order. */
  ghost predicate SameKeys(p: Pairs, q: Pairs) {
    |p| == |q| && forall i :: 0 <= i < |p| ==> p[i].0 == q[i].0
  }

  lemma {:induction false} PutAllEffect(o: string, d: Doc, pairs: Pairs)
    requires WellFormed(d) && Writable(pairs)
    ensures WellFormed(PutAll(o, d, pairs))
    ensures forall k :: (forall i :: 0 <= i < |pairs| ==> pairs[i].0 != k) ==> Lookup(PutAll(o, d, pairs), k) == Lookup(d, k)
    decreases |pairs|
  {
    hide Classify, PutKey, Lookup, IsName, Trimmed, WellFormed;
    if pairs != [] {
      PutKeyEffect(o, d, pairs[0].0, pairs[0].1);
      var d' := PutKey(o, d, pairs[0].0, pairs[0].1);
      PutAllEffect(o, d', pairs[1..]);
      forall k | forall i :: 0 <= i < |pairs| ==> pairs[i].0 != k
        ensures Lookup(PutAll(o, d, pairs), k) == Lookup(d, k)
      {
        assert forall i :: 0 <= i < |pairs[1..]| ==> pairs[1..][i].0 != k;
        assert pairs[0].0 != k;
      }
    }
  }

  /** A key already present can be written before or after the other pairs. */
  lemma {:induction false} PutAllSwap(o: string, d: Doc, k: string, v: string, pairs: Pairs)
    requires WellFormed(d) && Writable(pairs) && IsName(k) && Trimmed(v) && Lookup(d, k).Some?
    requires forall i :: 0 <= i < |pairs| ==> pairs[i].0 != k
    ensures Same(PutKey(o, PutAll(o, d, pairs), k, v), PutAll(o, PutKey(o, d, k, v), pairs))
    decreases |pairs|
  {
    hide Classify, PutKey, Lookup, IsName, Trimmed, WellFormed, Same;
    PutKeyEffect(o, d, k, v);
    if pairs == [] {
      SameRefl(PutKey(o, d, k, v));
    } else {
      var (k', v') := pairs[0];
      var rest := pairs[1..];
      var x, y := PutKey(o, d, k', v'), PutKey(o, d, k, v);
      PutKeyEffect(o, d, k', v');
      assert Lookup(x, k) == Lookup(d, k);
      PutAllSwap(o, x, k, v, rest);
      PutKeySwap(o, d, k, v, k', v');
      SamePutAll(o, PutKey(o, x, k, v), o, PutKey(o, y, k', v'), rest);
      SameTrans(PutKey(o, PutAll(o, x, rest), k, v), PutAll(o, PutKey(o, x, k, v), rest), PutAll(o, PutKey(o, y, k', v'), rest));
    }
  }

  /** Writing one list of values and then another reads like writing the other alone. */
  lemma {:induction false} PutAllTwice(o: string, d: Doc, p: Pairs, q: Pairs)
    requires WellFormed(d) && Writable(p) && Writable(q) && SameKeys(p, q)
    ensures Same(PutAll(o, PutAll(o, d, p), q), PutAll(o, d, q))
    decreases |p|
  {
    hide Classify, PutKey, Lookup, IsName, Trimmed, WellFormed, Same;
    if p == [] {
      SameRefl(d);
    } else {
      var (k, v) := p[0];
      var w := q[0].1;
      var x, y := PutKey(o, d, k, v), PutKey(o, d, k, w);
      PutKeyEffect(o, d, k, v);
      PutKeyEffect(o, d, k, w);
      PutKeyEffect(o, x, k, w);
      assert forall i :: 0 <= i < |p[1..]| ==> p[1..][i] == p[i + 1];
      PutAllSwap(o, x, k, w, p[1..]);
      PutKeyTwice(o, d, k, v, w);
      SamePutAll(o, PutKey(o, x, k, w), o, y, p[1..]);
      var a := PutKey(o, PutAll(o, x, p[1..]), k, w);
      SameTrans(a, PutAll(o, PutKey(o, x, k, w), p[1..]), PutAll(o, y, p[1..]));
      SamePutAll(o, a, o, PutAll(o, y, p[1..]), q[1..]);
      PutAllTwice(o, y, p[1..], q[1..]);
      SameTrans(PutAll(o, a, q[1..]), PutAll(o, PutAll(o, y, p[1..]), q[1..]), PutAll(o, y, q[1..]));
    }
  }

  // ----- links --------------------------------------------------------------------------

  lemma {:induction false} SetLinkEffect(o: string, d: Doc, link: nat, pairs: Pairs)
    requires WellFormed(d) && LinkPairs(pairs)
    ensures var e := SetLink(o, d, link, pairs);
            WellFormed(e) && HasIface(e, link) && OnlyLink(d, e, link)
  {
    hide Classify, Lookup, HasIface, Iface, SetIface, PutAll, Append, NewIface, WellFormed, ChildIndent,
         IfaceNumber, IsName, Trimmed;
    var d' := EnsureIface(o, d, link);
    SameRefl(d);
    SameEnsure(o, d, d, link);
    NewIfaceEffect(ChildIndent(o, d), link);
    AppendEffect(d, NewIface(ChildIndent(o, d), link));
    assert WellFormed(d') && OnlyLink(d, d', link);
    IfacesAreFormed(d');
    var (io, ib) := Iface(d', link);
    PutAllEffect(io, ib, pairs);
    SameNumber(ib, PutAll(io, ib, pairs));
    SetIfaceEffect(d', link, PutAll(io, ib, pairs));
  }

  lemma {:induction false} SameNumber(b: Doc, b': Doc)
    requires Lookup(b, "linknumber") == Lookup(b', "linknumber")
    ensures IfaceNumber(b) == IfaceNumber(b')
  {
    hide Lookup;
  }

  /** Completing a link twice reads like completing it with the last values. */
  lemma {:induction false} SetLinkTwice(o: string, d: Doc, link: nat, p: Pairs, q: Pairs)
    requires WellFormed(d) && LinkPairs(p) && LinkPairs(q) && SameKeys(p, q)
    ensures Same(SetLink(o, SetLink(o, d, link, p), link, q), SetLink(o, d, link, q))
  {
    hide Classify, Lookup, HasIface, Iface, SetIface, PutAll, Append, NewIface, WellFormed, ChildIndent,
         IfaceNumber, IsName, Trimmed, Same;
    var d' := EnsureIface(o, d, link);
    SetLinkEffect(o, d, link, p);
    SameRefl(d);
    SameEnsure(o, d, d, link);
    NewIfaceEffect(ChildIndent(o, d), link);
    AppendEffect(d, NewIface(ChildIndent(o, d), link));
    IfacesAreFormed(d');
    var (io, ib) := Iface(d', link);
    var b := PutAll(io, ib, p);
    PutAllEffect(io, ib, p);
    SameNumber(ib, b);
    SetIfaceEffect(d', link, b);
    SetIfaceTwice(d', link, b, PutAll(io, b, q));
    PutAllTwice(io, ib, p, q);
    SameRefl(d');
    SameSetIface(d', d', link, PutAll(io, b, q), PutAll(io, ib, q));
  }

  lemma {:induction false} SetIfaceSwap(d: Doc, l: nat, x: Doc, m: nat, y: Doc)
    requires l != m && HasIface(d, l) && HasIface(d, m)
    requires IfaceNumber(x) == IfaceNumber(Iface(d, l).1) && IfaceNumber(y) == IfaceNumber(Iface(d, m).1)
    ensures SetIface(SetIface(d, l, x), m, y) == SetIface(SetIface(d, m, y), l, x)
    decreases d
  {
    hide Classify, IfaceNumber, Decimal;
    DecimalInjective(l, m);
    match d {
      case Row(_, r) => SetIfaceSwap(r, l, x, m, y);
      case Block(o, b, c, r) =>
        if !IsIface(o, b, l) && !IsIface(o, b, m) {
          SetIfaceSwap(r, l, x, m, y);
        }
    }
  }

  lemma {:induction false} SetIfaceBeforeAppend(d: Doc, e: Doc, l: nat, x: Doc)
    requires HasIface(d, l)
    ensures SetIface(Append(d, e), l, x) == Append(SetIface(d, l, x), e)
    decreases d
  {
    hide Classify, IsIface;
    match d {
      case Row(_, r) => SetIfaceBeforeAppend(r, e, l, x);
      case Block(o, b, c, r) =>
        if !IsIface(o, b, l) {
          SetIfaceBeforeAppend(r, e, l, x);
        }
    }
  }

  /** What completing an existing link does: only its own block's body is replaced. */
  lemma {:induction false} SetLinkExisting(o: string, d: Doc, link: nat, pairs: Pairs)
    requires WellFormed(d) && LinkPairs(pairs) && HasIface(d, link)
    ensures var (io, ib) := Iface(d, link);
            SetLink(o, d, link, pairs) == SetIface(d, link, PutAll(io, ib, pairs))
            && IfaceNumber(PutAll(io, ib, pairs)) == IfaceNumber(ib)
  {
    hide Classify, Lookup, HasIface, Iface, SetIface, PutAll, WellFormed, IfaceNumber, IsName, Trimmed;
    IfacesAreFormed(d);
    var (io, ib) := Iface(d, link);
    PutAllEffect(io, ib, pairs);
    SameNumber(ib, PutAll(io, ib, pairs));
  }

  /** Two different links can be completed in either order, once the later one has a block. */
  lemma {:induction false} SetLinkSwap(o: string, d: Doc, l: nat, p: Pairs, m: nat, q: Pairs)
    requires WellFormed(d) && LinkPairs(p) && LinkPairs(q) && l != m && HasIface(d, l)
    ensures Same(SetLink(o, SetLink(o, d, m, q), l, p), SetLink(o, SetLink(o, d, l, p), m, q))
  {
    hide Classify, Lookup, HasIface, Iface, SetIface, PutAll, Append, NewIface, WellFormed, ChildIndent,
         IfaceNumber, Same, SetLink, LinkPairs;
    SetLinkExisting(o, d, l, p);
    SetLinkEffect(o, d, l, p);
    var (lo, lb) := Iface(d, l);
    var x := PutAll(lo, lb, p);
    var dl := SetIface(d, l, x);
    SetIfaceEffect(d, l, x);
    if HasIface(d, m) {
      SwapExisting(o, d, l, p, m, q);
      SameRefl(SetLink(o, SetLink(o, d, m, q), l, p));
    } else {
      var n, n' := NewIface(ChildIndent(o, d), m), NewIface(ChildIndent(o, dl), m);
      NewIfaceEffect(ChildIndent(o, d), m);
      NewIfaceEffect(ChildIndent(o, dl), m);
      AppendEffect(d, n);
      AppendEffect(dl, n');
      var dm := Append(d, n);
      EnsureNew(o, d, m, q);
      EnsureNew(o, dl, m, q);
      SwapExisting(o, dm, l, p, m, q);
      SetLinkExisting(o, dm, l, p);
      SetIfaceBeforeAppend(d, n, l, x);
      SameNewIface(ChildIndent(o, d), ChildIndent(o, dl), m);
      SameRefl(dl);
      SameAppend(dl, dl, n, n');
      WritableOf(q);
      SameSetLink(o, Append(dl, n), Append(dl, n'), m, q);
    }
  }

  lemma {:induction false} WritableOf(pairs: Pairs)
    requires LinkPairs(pairs)
    ensures Writable(pairs)
  {
  }

  /** Completing a link with no block is completing it after its block was appended. */
  lemma {:induction false} EnsureNew(o: string, d: Doc, m: nat, q: Pairs)
    requires !HasIface(d, m) && HasIface(Append(d, NewIface(ChildIndent(o, d), m)), m)
    ensures SetLink(o, d, m, q) == SetLink(o, Append(d, NewIface(ChildIndent(o, d), m)), m, q)
  {
    hide Classify, HasIface, Iface, SetIface, PutAll, Append, NewIface, ChildIndent;
  }

  lemma {:induction false} SwapExisting(o: string, d: Doc, l: nat, p: Pairs, m: nat, q: Pairs)
    requires WellFormed(d) && LinkPairs(p) && LinkPairs(q) && l != m && HasIface(d, l) && HasIface(d, m)
    ensures SetLink(o, SetLink(o, d, m, q), l, p) == SetLink(o, SetLink(o, d, l, p), m, q)
  {
    hide Classify, Lookup, HasIface, Iface, SetIface, PutAll, WellFormed, IfaceNumber, SetLink, LinkPairs;
    SetLinkExisting(o, d, l, p);
    SetLinkExisting(o, d, m, q);
    SetLinkEffect(o, d, l, p);
    SetLinkEffect(o, d, m, q);
    SetLinkExisting(o, SetLink(o, d, m, q), l, p);
    SetLinkExisting(o, SetLink(o, d, l, p), m, q);
    var (lo, lb) := Iface(d, l);
    var (mo, mb) := Iface(d, m);
    SetIfaceSwap(d, l, PutAll(lo, lb, p), m, PutAll(mo, mb, q));
  }

  /** A link that has a block can be completed before or after all the other links. */
  lemma {:induction false} SetLinksSwap(o: string, d: Doc, l: nat, p: Pairs, links: seq<nat>, q: Pairs)
    requires WellFormed(d) && LinkPairs(p) && LinkPairs(q) && HasIface(d, l)
    requires forall i :: 0 <= i < |links| ==> links[i] != l
    ensures Same(SetLink(o, SetLinks(o, d, links, q), l, p), SetLinks(o, SetLink(o, d, l, p), links, q))
    decreases |links|
  {
    hide Classify, WellFormed, Same, SetLink, LinkPairs, HasIface, OnlyLink;
    if links == [] {
      SameRefl(SetLink(o, d, l, p));
    } else {
      var m, rest := links[0], links[1..];
      var x, y := SetLink(o, d, m, q), SetLink(o, d, l, p);
      SetLinkEffect(o, d, m, q);
      KeepsIface(d, x, m, l);
      SetLinksSwap(o, x, l, p, rest, q);
      SetLinkSwap(o, d, l, p, m, q);
      WritableOf(q);
      SameSetLinks(o, SetLink(o, x, l, p), SetLink(o, y, m, q), rest, q);
      SameTrans(SetLink(o, SetLinks(o, x, rest, q), l, p), SetLinks(o, SetLink(o, x, l, p), rest, q), SetLinks(o, SetLink(o, y, m, q), rest, q));
    }
  }

  lemma {:induction false} KeepsIface(d: Doc, e: Doc, m: nat, l: nat)
    requires OnlyLink(d, e, m) && l != m
    ensures HasIface(e, l) == HasIface(d, l)
  {
  }

  lemma {:induction false} SetLinksFormed(o: string, d: Doc, links: seq<nat>, pairs: Pairs)
    requires WellFormed(d) && LinkPairs(pairs)
    ensures WellFormed(SetLinks(o, d, links, pairs))
    ensures forall k :: Lookup(SetLinks(o, d, links, pairs), k) == Lookup(d, k)
    decreases |links|
  {
    hide Classify, WellFormed, SetLink, LinkPairs, HasIface, Iface, Lookup;
    if links != [] {
      SetLinkEffect(o, d, links[0], pairs);
      SetLinksFormed(o, SetLink(o, d, links[0], pairs), links[1..], pairs);
    }
  }

  /** Completing all links twice reads like completing them with the last values. */
  lemma {:induction false} SetLinksTwice(o: string, d: Doc, links: seq<nat>, p: Pairs, q: Pairs)
    requires WellFormed(d) && LinkPairs(p) && LinkPairs(q) && SameKeys(p, q) && Distinct(links)
    ensures Same(SetLinks(o, SetLinks(o, d, links, p), links, q), SetLinks(o, d, links, q))
    decreases |links|
  {
    hide Classify, WellFormed, Same, SetLink, LinkPairs, HasIface, SameKeys, OnlyLink;
    if links == [] {
      SameRefl(d);
    } else {
      var l, rest := links[0], links[1..];
      var x, y := SetLink(o, d, l, p), SetLink(o, d, l, q);
      SetLinkEffect(o, d, l, p);
      SetLinkEffect(o, d, l, q);
      SetLinkEffect(o, x, l, q);
      SetLinksSwap(o, x, l, q, rest, p);
      SetLinkTwice(o, d, l, p, q);
      WritableOf(p);
      WritableOf(q);
      SameSetLinks(o, SetLink(o, x, l, q), y, rest, p);
      var a := SetLink(o, SetLinks(o, x, rest, p), l, q);
      SameTrans(a, SetLinks(o, SetLink(o, x, l, q), rest, p), SetLinks(o, y, rest, p));
      SameSetLinks(o, a, SetLinks(o, y, rest, p), rest, q);
      SetLinksTwice(o, y, rest, p, q);
      SameTrans(SetLinks(o, a, rest, q), SetLinks(o, SetLinks(o, y, rest, p), rest, q), SetLinks(o, y, rest, q));
    }
  }

  // ----- the token ----------------------------------------------------------------------

  lemma {:induction false} SetRowBeforeSetIface(d: Doc, k: string, v: string, l: nat, x: Doc)
    ensures SetRow(SetIface(d, l, x), k, v) == SetIface(SetRow(d, k, v), l, x)
    decreases d
  {
    hide Classify, IsIface, KeyLine, IndentOf;
    match d {
      case End =>
      case Row(_, r) => SetRowBeforeSetIface(r, k, v, l, x);
      case Block(_, _, _, r) => SetRowBeforeSetIface(r, k, v, l, x);
    }
  }

  /** A key already present can be written before or after a link is completed. */
  lemma {:induction false} PutKeyBeforeLink(o: string, d: Doc, k: string, v: string, l: nat, q: Pairs)
    requires WellFormed(d) && LinkPairs(q) && IsName(k) && Trimmed(v) && Lookup(d, k).Some?
    ensures Same(PutKey(o, SetLink(o, d, l, q), k, v), SetLink(o, PutKey(o, d, k, v), l, q))
  {
    hide Classify, Lookup, HasIface, Iface, SetIface, PutAll, Append, NewIface, WellFormed, ChildIndent,
         IfaceNumber, Same, LinkPairs, IsName, Trimmed, SetRow, SetLink;
    PutKeyEffect(o, d, k, v);
    SetLinkEffect(o, d, l, q);
    if Lookup(d, k) == Some(v) {
      SameRefl(SetLink(o, d, l, q));
    } else {
      var e := SetRow(d, k, v);
      if HasIface(d, l) {
        SetLinkExisting(o, d, l, q);
        SetLinkExisting(o, e, l, q);
        SetRowBeforeSetIface(d, k, v, l, PutAll(Iface(d, l).0, Iface(d, l).1, q));
        SameRefl(SetLink(o, e, l, q));
      } else {
        var n, n' := NewIface(ChildIndent(o, d), l), NewIface(ChildIndent(o, e), l);
        NewIfaceEffect(ChildIndent(o, d), l);
        NewIfaceEffect(ChildIndent(o, e), l);
        AppendEffect(d, n);
        AppendEffect(e, n);
        AppendEffect(e, n');
        EnsureNew(o, d, l, q);
        EnsureNew(o, e, l, q);
        SetLinkExisting(o, Append(d, n), l, q);
        SetLinkExisting(o, Append(e, n), l, q);
        SetRowBeforeSetIface(Append(d, n), k, v, l, PutAll(Iface(n, l).0, Iface(n, l).1, q));
        SetRowBeforeAppend(d, n, k, v);
        SameNewIface(ChildIndent(o, d), ChildIndent(o, e), l);
        SameRefl(e);
        SameAppend(e, e, n, n');
        WritableOf(q);
        SameSetLink(o, Append(e, n), Append(e, n'), l, q);
      }
    }
  }

  lemma {:induction false} PutKeyBeforeLinks(o: string, d: Doc, k: string, v: string, links: seq<nat>, q: Pairs)
    requires WellFormed(d) && LinkPairs(q) && IsName(k) && Trimmed(v) && Lookup(d, k).Some?
    ensures Same(PutKey(o, SetLinks(o, d, links, q), k, v), SetLinks(o, PutKey(o, d, k, v), links, q))
    decreases |links|
  {
    hide Classify, Lookup, WellFormed, Same, LinkPairs, IsName, Trimmed, SetLink, PutKey, HasIface, Iface;
    if links == [] {
      SameRefl(PutKey(o, d, k, v));
    } else {
      var l, rest := links[0], links[1..];
      var x, y := SetLink(o, d, l, q), PutKey(o, d, k, v);
      SetLinkEffect(o, d, l, q);
      assert Lookup(x, k) == Lookup(d, k);
      PutKeyBeforeLinks(o, x, k, v, rest, q);
      PutKeyBeforeLink(o, d, k, v, l, q);
      WritableOf(q);
      SameSetLinks(o, PutKey(o, x, k, v), SetLink(o, y, l, q), rest, q);
      SameTrans(PutKey(o, SetLinks(o, x, rest, q), k, v), SetLinks(o, PutKey(o, x, k, v), rest, q), SetLinks(o, SetLink(o, y, l, q), rest, q));
    }
  }

  /** Settling for one token and then another reads like settling for the other alone. */
  lemma {:induction false} SettleTwice(o: string, d: Doc, links: seq<nat>, k1: nat, k2: nat)
    requires WellFormed(d) && Distinct(links)
    ensures Same(Settle(o, Settle(o, d, links, k1), links, k2), Settle(o, d, links, k2))
  {
    hide Classify, Lookup, WellFormed, Same, LinkPairs, IsName, Trimmed, SetLinks, PutKey, HeartbeatValues,
         Decimal, HasIface, Iface;
    var p, q, v, w := HeartbeatValues(k1), HeartbeatValues(k2), Decimal(k1), Decimal(k2);
    HeartbeatPairs(k1);
    HeartbeatPairs(k2);
    HeartbeatKeys(k1, k2);
    var x, y := PutKey(o, d, "token", v), PutKey(o, d, "token", w);
    PutKeyEffect(o, d, "token", v);
    PutKeyEffect(o, d, "token", w);
    PutKeyEffect(o, x, "token", w);
    PutKeyBeforeLinks(o, x, "token", w, links, p);
    PutKeyTwice(o, d, "token", v, w);
    WritableOf(p);
    WritableOf(q);
    var a := PutKey(o, SetLinks(o, x, links, p), "token", w);
    SameSetLinks(o, PutKey(o, x, "token", w), y, links, p);
    SameTrans(a, SetLinks(o, PutKey(o, x, "token", w), links, p), SetLinks(o, y, links, p));
    SameSetLinks(o, a, SetLinks(o, y, links, p), links, q);
    SetLinksTwice(o, y, links, p, q);
    SameTrans(SetLinks(o, a, links, q), SetLinks(o, SetLinks(o, y, links, p), links, q), SetLinks(o, y, links, q));
  }

  lemma {:induction false} HeartbeatKeys(k1: nat, k2: nat)
    ensures SameKeys(HeartbeatValues(k1), HeartbeatValues(k2))
  {
  }

  lemma {:induction false} SameWithTotem(d: Doc, x: Doc, y: Doc)
    requires Same(x, y)
    ensures Same(WithTotem(d, x), WithTotem(d, y))
    decreases d
  {
    hide Classify, NameOf;
    match d {
      case End =>
      case Row(_, r) => SameWithTotem(r, x, y);
      case Block(o, b, c, r) =>
        SameRefl(b);
        SameRefl(r);
        SameWithTotem(r, x, y);
    }
  }

  lemma {:induction false} ConfigureIs(d: Doc, token: nat)
    requires Editable(d)
    ensures Configure(d, token) == WithTotem(d, Settle(Totem(d).0, Totem(d).1, Links(d), token))
  {
    hide Classify, Settle, Totem, WithTotem, TotemCount, Rings, LinksFrom, WellFormed;
  }

  lemma {:induction false} ConfigureTwice(d: Doc, k1: nat, k2: nat)
    requires Editable(d)
    ensures Editable(Configure(d, k1))
    ensures Configure(Configure(d, k1), k2)
         == WithTotem(d, Settle(Totem(d).0, Settle(Totem(d).0, Totem(d).1, Links(d), k1), Links(d), k2))
  {
    hide Classify, Settle, Totem, WithTotem, TotemCount, Links, WellFormed, Configure;
    var (o, b) := Totem(d);
    ConfigureIs(d, k1);
    ConfigureEffect(d, k1);
    ConfigureIs(Configure(d, k1), k2);
    WithTotemEffect(d, Settle(o, b, Links(d), k1));
    WithTotemTwice(d, Settle(o, b, Links(d), k1), Settle(o, Settle(o, b, Links(d), k1), Links(d), k2));
  }

  lemma {:induction false} TotemFormed(d: Doc)
    requires Editable(d)
    ensures TotemCount(d) > 0 && WellFormed(Totem(d).1)
  {
    hide Classify, Totem, WithTotem, TotemCount, WellFormed;
    WithTotemEffect(d, End);
  }

  /** Of two tokens applied in turn, the last one wins: the file reads line by line as if
      only the last had been applied. */
  lemma {:induction false} LastTokenWins(d: Doc, k1: nat, k2: nat)
    requires Editable(d)
    ensures Editable(Configure(d, k1))
    ensures Same(Configure(Configure(d, k1), k2), Configure(d, k2))
  {
    hide *;
    TotemFormed(d);
    var o, b, links := Totem(d).0, Totem(d).1, Links(d);
    ConfigureTwice(d, k1, k2);
    ConfigureIs(d, k2);
    LinksDistinct(d);
    SettleTwice(o, b, links, k1, k2);
    SameWithTotem(d, Settle(o, Settle(o, b, links, k1), links, k2), Settle(o, b, links, k2));
  }

  lemma {:induction false} LinksDistinct(d: Doc)
    ensures Distinct(Links(d))
  {
    hide Rings;
  }
}
