/** What editing a corosync.conf answers, said on the lines and blocks of the file alone: which
    links it configures, which values it leaves in place, and when it refuses. */
module CorosyncAnswer {
  import opened Wrappers
  import opened Text
  import opened CorosyncSyntax
  import opened CorosyncTree
  import opened CorosyncEdit
  import opened CorosyncConfig
  import opened CorosyncLocate
  import opened CorosyncEditor
  import opened CorosyncFrame

  // ----- lines and blocks directly in a body --------------------------------------------

  predicate HasRow(d: Doc, l: string) {
    match d
    case End => false
    case Row(m, rest) => m == l || HasRow(rest, l)
    case Block(_, _, _, rest) => HasRow(rest, l)
  }

  predicate HasBlock(d: Doc, o: string, b: Doc) {
    match d
    case End => false
    case Row(_, rest) => HasBlock(rest, o, b)
    case Block(p, a, _, rest) => (p == o && a == b) || HasBlock(rest, o, b)
  }

  /** A block of this name stands directly in the body. */
  ghost predicate Named(d: Doc, name: string, o: string, b: Doc) { HasBlock(d, o, b) && Classify(o) == Open(name) }

  // ----- ring numbers -------------------------------------------------------------------

  /** A key is a ring address exactly when it is `ring`, digits, `_addr`. */
  lemma {:induction false} RingNumberIff(key: string, n: nat)
    ensures RingNumber(key) == Some(n) <==>
            exists d :: d != "" && AllDigits(d) && ParseNat(d) == n && key == "ring" + d + "_addr"
  {
    hide ParseNat, AllDigits;
    if RingNumber(key) == Some(n) {
      var d := key[4..|key| - 5];
      assert key == key[..4] + d + key[|key| - 5..];
    }
    if d :| d != "" && AllDigits(d) && ParseNat(d) == n && key == "ring" + d + "_addr" {
      assert key[..4] == "ring" && key[|key| - 5..] == "_addr" && key[4..|key| - 5] == d;
    }
  }

  /** The line gives a node an address on this ring. */
  ghost predicate RingLine(l: string, n: nat) {
    exists d, v :: d != "" && AllDigits(d) && ParseNat(d) == n && Classify(l) == Key("ring" + d + "_addr", v)
  }

  /** A node of a top-level nodelist has an address on this ring. */
  ghost predicate NamesRing(d: Doc, n: nat) {
    exists lo, lb, no, nb, l :: Named(d, "nodelist", lo, lb) && Named(lb, "node", no, nb) && HasRow(nb, l) && RingLine(l, n)
  }

  lemma {:induction false} KeySetIff(d: Doc, k: string)
    ensures k in KeySet(d) <==> exists l :: HasRow(d, l) && Classify(l).Key? && Classify(l).key == k
    decreases d
  {
    hide Classify;
    match d {
      case End =>
      case Row(l, rest) =>
        KeySetIff(rest, k);
        if m :| HasRow(rest, m) && Classify(m).Key? && Classify(m).key == k {
          assert HasRow(d, m);
        }
        if Classify(l).Key? && Classify(l).key == k {
          assert HasRow(d, l);
        }
      case Block(_, _, _, rest) =>
        KeySetIff(rest, k);
        if m :| HasRow(rest, m) && Classify(m).Key? && Classify(m).key == k {
          assert HasRow(d, m);
        }
    }
  }

  lemma {:induction false} BodyRings(d: Doc, n: nat)
    ensures n in RingsOfKeys(KeySet(d)) <==> exists l :: HasRow(d, l) && RingLine(l, n)
  {
    hide Classify, KeySet, HasRow, RingNumber, ParseNat, AllDigits;
    if n in RingsOfKeys(KeySet(d)) {
      var k :| k in KeySet(d) && RingNumber(k) == Some(n);
      KeySetIff(d, k);
      RingNumberIff(k, n);
      var l :| HasRow(d, l) && Classify(l).Key? && Classify(l).key == k;
      assert RingLine(l, n);
    }
    if l :| HasRow(d, l) && RingLine(l, n) {
      var g, v :| g != "" && AllDigits(g) && ParseNat(g) == n && Classify(l) == Key("ring" + g + "_addr", v);
      var k := "ring" + g + "_addr";
      KeySetIff(d, k);
      RingNumberIff(k, n);
      assert k in KeySet(d) && RingNumber(k) == Some(n);
    }
  }

  lemma {:induction false} NodeRingsIff(d: Doc, n: nat)
    ensures n in NodeRings(d) <==> exists o, b, l :: Named(d, "node", o, b) && HasRow(b, l) && RingLine(l, n)
    decreases d
  {
    hide Classify, HasRow, RingLine, RingsOfKeys, KeySet;
    match d {
      case End =>
      case Row(_, rest) =>
        NodeRingsIff(rest, n);
        forall o, b ensures Named(d, "node", o, b) == Named(rest, "node", o, b) {
        }
      case Block(p, a, _, rest) =>
        NodeRingsIff(rest, n);
        BodyRings(a, n);
        forall o, b ensures Named(d, "node", o, b) <==> (p == o && a == b && NameOf(p) == "node") || Named(rest, "node", o, b) {
        }
        if o, b, l :| Named(d, "node", o, b) && HasRow(b, l) && RingLine(l, n) {
          assert Named(rest, "node", o, b) || (b == a && NameOf(p) == "node");
        }
        if NameOf(p) == "node" && n in RingsOfKeys(KeySet(a)) {
          var l :| HasRow(a, l) && RingLine(l, n);
          assert Named(d, "node", p, a);
        }
        if o, b, l :| Named(rest, "node", o, b) && HasRow(b, l) && RingLine(l, n) {
          assert Named(d, "node", o, b);
        }
    }
  }

  lemma {:induction false} RingsIff(d: Doc, n: nat)
    ensures n in Rings(d) <==> NamesRing(d, n)
    decreases d
  {
    hide Classify, HasRow, RingLine, NodeRings;
    match d {
      case End =>
      case Row(_, rest) =>
        RingsIff(rest, n);
        forall o, b ensures Named(d, "nodelist", o, b) == Named(rest, "nodelist", o, b) {
        }
        assert NamesRing(d, n) == NamesRing(rest, n);
      case Block(p, a, _, rest) =>
        RingsIff(rest, n);
        NodeRingsIff(a, n);
        forall o, b ensures Named(d, "nodelist", o, b) <==> (p == o && a == b && NameOf(p) == "nodelist") || Named(rest, "nodelist", o, b) {
        }
        hide HasBlock;
        if o, b, no, nb, l :| Named(d, "nodelist", o, b) && Named(b, "node", no, nb) && HasRow(nb, l) && RingLine(l, n) {
          if Named(rest, "nodelist", o, b) {
            assert NamesRing(rest, n);
          } else {
            assert b == a && NameOf(p) == "nodelist";
            assert n in NodeRings(a);
          }
        }
        if NameOf(p) == "nodelist" && n in NodeRings(a) {
          var no, nb, l :| Named(a, "node", no, nb) && HasRow(nb, l) && RingLine(l, n);
          assert Named(d, "nodelist", p, a);
        }
        if o, b, no, nb, l :| Named(rest, "nodelist", o, b) && Named(b, "node", no, nb) && HasRow(nb, l) && RingLine(l, n) {
          assert Named(d, "nodelist", o, b);
        }
    }
  }

  /** The link is to be configured: a node has an address on it, or it is link 0 and no node
      has an address on any. */
  ghost predicate HeartbeatLink(d: Doc, n: nat) { NamesRing(d, n) || (n == 0 && forall m: nat :: !NamesRing(d, m)) }

  lemma {:induction false} LinksIff(d: Doc, n: nat)
    ensures n in Links(d) <==> HeartbeatLink(d, n)
  {
    hide NamesRing, Rings;
    forall m: nat ensures m in Rings(d) <==> NamesRing(d, m) {
      RingsIff(d, m);
    }
    if Rings(d) != {} {
      var m :| m in Rings(d);
      assert NamesRing(d, m);
    }
  }

  // ----- effective values ---------------------------------------------------------------

  /** The value on the first line of the key in the body. */
  ghost predicate FirstValue(d: Doc, key: string, value: string) {
    exists pre, l, post :: d == Append(pre, Row(l, post)) && Classify(l) == Key(key, value) && NoKey(pre, key)
  }

  ghost predicate NoKey(d: Doc, key: string) { forall l :: HasRow(d, l) ==> !(Classify(l).Key? && Classify(l).key == key) }

  lemma {:induction false} LookupNone(d: Doc, key: string)
    ensures Lookup(d, key) == None <==> NoKey(d, key)
    decreases d
  {
    hide Classify;
    match d {
      case End =>
      case Row(l, rest) =>
        LookupNone(rest, key);
        assert HasRow(d, l);
        forall m ensures HasRow(d, m) <==> m == l || HasRow(rest, m) {
        }
      case Block(_, _, _, rest) =>
        LookupNone(rest, key);
        forall m ensures HasRow(d, m) <==> HasRow(rest, m) {
        }
    }
  }

  lemma {:induction false} LookupIff(d: Doc, key: string, value: string)
    ensures Lookup(d, key) == Some(value) <==> FirstValue(d, key, value)
    decreases d
  {
    if Lookup(d, key) == Some(value) {
      var pre, l, post := FirstAt(d, key, value);
    }
    if pre, l, post :| d == Append(pre, Row(l, post)) && Classify(l) == Key(key, value) && NoKey(pre, key) {
      AfterNoKey(pre, l, post, key, value);
    }
  }

  lemma {:induction false} FirstAt(d: Doc, key: string, value: string) returns (pre: Doc, l: string, post: Doc)
    requires Lookup(d, key) == Some(value)
    ensures d == Append(pre, Row(l, post)) && Classify(l) == Key(key, value) && NoKey(pre, key)
    decreases d
  {
    hide Classify;
    match d {
      case Row(m, rest) =>
        if Classify(m).Key? && Classify(m).key == key {
          pre, l, post := End, m, rest;
        } else {
          pre, l, post := FirstAt(rest, key, value);
          pre := Row(m, pre);
        }
      case Block(o, b, c, rest) =>
        pre, l, post := FirstAt(rest, key, value);
        pre := Block(o, b, c, pre);
    }
  }

  lemma {:induction false} AfterNoKey(pre: Doc, l: string, post: Doc, key: string, value: string)
    requires Classify(l) == Key(key, value) && NoKey(pre, key)
    ensures Lookup(Append(pre, Row(l, post)), key) == Some(value)
    decreases pre
  {
    hide Classify;
    match pre {
      case End =>
      case Row(m, rest) =>
        assert HasRow(pre, m);
        assert forall n :: HasRow(rest, n) ==> HasRow(pre, n);
        AfterNoKey(rest, l, post, key, value);
      case Block(_, _, _, rest) =>
        assert forall n :: HasRow(rest, n) ==> HasRow(pre, n);
        AfterNoKey(rest, l, post, key, value);
    }
  }

  // ----- the interface of a link --------------------------------------------------------

  /** The block is an interface of the link: by its first `linknumber` line, or, for link 0,
      for want of one. */
  ghost predicate OfLink(o: string, b: Doc, n: nat) {
    Classify(o) == Open("interface") && (FirstValue(b, "linknumber", Decimal(n)) || (n == 0 && NoKey(b, "linknumber")))
  }

  /** The first interface of the link in the body. */
  ghost predicate FirstOfLink(d: Doc, n: nat, o: string, b: Doc) {
    exists pre, c, post :: d == Append(pre, Block(o, b, c, post)) && OfLink(o, b, n) && forall p, a :: HasBlock(pre, p, a) ==> !OfLink(p, a, n)
  }

  lemma {:induction false} OfLinkIff(o: string, b: Doc, n: nat)
    ensures IsIface(o, b, n) <==> OfLink(o, b, n)
  {
    hide Classify, Lookup, FirstValue, NoKey, Decimal;
    LookupNone(b, "linknumber");
    LookupIff(b, "linknumber", Decimal(n));
    Zero(n);
  }

  lemma {:induction false} Zero(n: nat)
    ensures Decimal(n) == "0" <==> n == 0
  {
    DecimalInjective(n, 0);
    assert Decimal(0) == "0";
  }

  lemma {:induction false} IfaceIsFirst(d: Doc, n: nat)
    requires HasIface(d, n)
    ensures FirstOfLink(d, n, Iface(d, n).0, Iface(d, n).1)
    decreases d
  {
    var pre, c, post := IfaceAt(d, n);
  }

  lemma {:induction false} IfaceAt(d: Doc, n: nat) returns (pre: Doc, c: string, post: Doc)
    requires HasIface(d, n)
    ensures var (o, b) := Iface(d, n);
            d == Append(pre, Block(o, b, c, post)) && OfLink(o, b, n) && forall p, a :: HasBlock(pre, p, a) ==> !OfLink(p, a, n)
    decreases d
  {
    hide OfLink, IsIface;
    match d {
      case Row(m, rest) =>
        pre, c, post := IfaceAt(rest, n);
        pre := Row(m, pre);
      case Block(o, b, e, rest) =>
        OfLinkIff(o, b, n);
        if IsIface(o, b, n) {
          pre, c, post := End, e, rest;
        } else {
          pre, c, post := IfaceAt(rest, n);
          pre := Block(o, b, e, pre);
        }
    }
  }

  // ----- the one totem section ----------------------------------------------------------

  /** The file's only top-level totem section. */
  ghost predicate OnlyTotem(d: Doc, o: string, b: Doc) {
    exists pre, c, post :: d == Append(pre, Block(o, b, c, post)) && Classify(o) == Open("totem") && NoTotem(pre) && NoTotem(post)
  }

  ghost predicate NoTotem(d: Doc) { forall o, b :: !Named(d, "totem", o, b) }

  lemma {:induction false} NoTotemIff(d: Doc)
    ensures TotemCount(d) == 0 <==> NoTotem(d)
    decreases d
  {
    hide Classify;
    match d {
      case End =>
      case Row(_, rest) =>
        NoTotemIff(rest);
        assert forall o, b :: Named(d, "totem", o, b) == Named(rest, "totem", o, b);
      case Block(p, a, _, rest) =>
        NoTotemIff(rest);
        assert forall o, b :: Named(d, "totem", o, b) <==> (p == o && a == b && NameOf(p) == "totem") || Named(rest, "totem", o, b);
        assert NameOf(p) == "totem" ==> Named(d, "totem", p, a);
    }
  }

  lemma {:induction false} TotemAt(d: Doc) returns (pre: Doc, c: string, post: Doc)
    requires TotemCount(d) == 1
    ensures var (o, b) := Totem(d);
            d == Append(pre, Block(o, b, c, post)) && Classify(o) == Open("totem") && NoTotem(pre) && NoTotem(post)
    decreases d
  {
    hide Classify, NoTotem;
    NoTotemIff(End);
    match d {
      case Row(m, rest) =>
        pre, c, post := TotemAt(rest);
        NoTotemIff(pre);
        pre := Row(m, pre);
        NoTotemIff(pre);
      case Block(o, b, e, rest) =>
        if NameOf(o) == "totem" {
          pre, c, post := End, e, rest;
          NoTotemIff(rest);
        } else {
          pre, c, post := TotemAt(rest);
          NoTotemIff(pre);
          pre := Block(o, b, e, pre);
          NoTotemIff(pre);
        }
    }
  }

  lemma {:induction false} CountAround(pre: Doc, o: string, b: Doc, c: string, post: Doc)
    requires Classify(o) == Open("totem") && NoTotem(pre) && NoTotem(post)
    ensures TotemCount(Append(pre, Block(o, b, c, post))) == 1
    decreases pre
  {
    hide Classify, NoTotem;
    NoTotemIff(pre);
    NoTotemIff(post);
    match pre {
      case End =>
      case Row(_, rest) =>
        NoTotemIff(rest);
        CountAround(rest, o, b, c, post);
      case Block(_, _, _, rest) =>
        NoTotemIff(rest);
        CountAround(rest, o, b, c, post);
    }
  }

  lemma {:induction false} OneTotemIff(d: Doc)
    ensures TotemCount(d) == 1 <==> exists o, b :: OnlyTotem(d, o, b)
    ensures TotemCount(d) == 1 ==> OnlyTotem(d, Totem(d).0, Totem(d).1)
  {
    hide Classify, NoTotem, TotemCount, Totem;
    if TotemCount(d) == 1 {
      var pre, c, post := TotemAt(d);
      assert OnlyTotem(d, Totem(d).0, Totem(d).1);
    }
    if o, b :| OnlyTotem(d, o, b) {
      var pre, c, post :| d == Append(pre, Block(o, b, c, post)) && Classify(o) == Open("totem") && NoTotem(pre) && NoTotem(post);
      CountAround(pre, o, b, c, post);
    }
  }

  // ----- the answer ---------------------------------------------------------------------

  /** The values of one link's interface, halves and twentieths of the token. */
  ghost predicate KnetValues(b: Doc, token: nat) {
    && FirstValue(b, "knet_ping_timeout", Decimal(token / 2))
    && FirstValue(b, "knet_ping_interval", Decimal(token / 20))
    && FirstValue(b, "knet_pong_count", "2")
  }

  /** The one totem section has the token, and the first interface of each link its values. */
  ghost predicate HeartbeatSet(d: Doc, e: Doc, token: nat) {
    exists o, b :: OnlyTotem(e, o, b) && FirstValue(b, "token", Decimal(token)) && forall n: nat :: HeartbeatLink(d, n) ==> LinkSet(b, n, token)
  }

  ghost predicate LinkSet(b: Doc, n: nat, token: nat) { exists io, ib :: FirstOfLink(b, n, io, ib) && KnetValues(ib, token) }

  lemma {:induction false} InPlaceIsSet(b: Doc, links: seq<nat>, token: nat, n: nat)
    requires InPlace(b, links, token) && n in links
    ensures LinkSet(b, n, token)
  {
    hide Classify, Lookup, HasIface, Iface, Decimal, FirstOfLink, FirstValue;
    var i :| 0 <= i < |links| && links[i] == n;
    var (io, ib) := Iface(b, n);
    var pairs := HeartbeatValues(token);
    assert Lookup(ib, pairs[0].0) == Some(pairs[0].1) && Lookup(ib, pairs[1].0) == Some(pairs[1].1) && Lookup(ib, pairs[2].0) == Some(pairs[2].1);
    LookupIff(ib, "knet_ping_timeout", Decimal(token / 2));
    LookupIff(ib, "knet_ping_interval", Decimal(token / 20));
    LookupIff(ib, "knet_pong_count", "2");
    IfaceIsFirst(b, n);
  }

  /** An edited file parses, and holds the settings for every link its nodes have an address
      on; it names the same links as before. */
  lemma {:induction false} EveryLinkSet(text: string, token: int)
    requires Configured(text, token).Ok?
    ensures TreeOf(SplitLines(text)).Some? && token >= 0 && TreeOf(SplitLines(Configured(text, token).value)).Some?
    ensures var d, e := TreeOf(SplitLines(text)).value, TreeOf(SplitLines(Configured(text, token).value)).value;
            HeartbeatSet(d, e, token) && forall n: nat :: HeartbeatLink(e, n) <==> HeartbeatLink(d, n)
  {
    hide Configured, TreeOf, SplitLines, InPlace, Links, Totem, TotemCount, WellFormed, OnlyTotem, HeartbeatLink, LinkSet, FirstValue, Classify;
    HeartbeatInPlace(text, token);
    var d, e := TreeOf(SplitLines(text)).value, TreeOf(SplitLines(Configured(text, token).value)).value;
    var (o, b) := Totem(e);
    OneTotemIff(e);
    forall n: nat ensures (n in Links(d) <==> HeartbeatLink(d, n)) && (n in Links(e) <==> HeartbeatLink(e, n)) {
      LinksIff(d, n);
      LinksIff(e, n);
    }
    forall n: nat | HeartbeatLink(d, n) ensures LinkSet(b, n, token) {
      InPlaceIsSet(b, Links(d), token, n);
    }
    TokenInPlace(b, Links(d), token);
  }

  lemma {:induction false} TokenInPlace(b: Doc, links: seq<nat>, token: nat)
    requires InPlace(b, links, token)
    ensures FirstValue(b, "token", Decimal(token))
  {
    hide Lookup, Decimal, HeartbeatValues, FirstValue;
    LookupIff(b, "token", Decimal(token));
  }

  /** When the edit is refused, and why. */
  lemma {:induction false} RefusedIff(text: string, token: int)
    ensures Configured(text, token) == Err(TokenOutOfRange) <==> token < 3000 || token > 120000
    ensures Configured(text, token).Ok? <==>
            && 3000 <= token <= 120000 && TreeOf(SplitLines(text)).Some?
            && exists o, b :: OnlyTotem(TreeOf(SplitLines(text)).value, o, b)
  {
    hide TreeOf, SplitLines, Scan, OnlyTotem, TotemCount, Configure, Render, Flatten;
    ScanMatchesTree(SplitLines(text));
    if TreeOf(SplitLines(text)).Some? {
      OneTotemIff(TreeOf(SplitLines(text)).value);
    }
  }

  // ----- the lines written --------------------------------------------------------------

  /** A key the body lacks is added at its end, indented like its first line. */
  lemma {:induction false} PutAtEnd(o: string, l: string, rest: Doc, indent: string, key: string, value: string)
    requires Classify(l).Key? && IndentOf(l) == indent && Lookup(Row(l, rest), key) == None
    ensures PutKey(o, Row(l, rest), key, value) == Append(Row(l, rest), Row(KeyLine(indent, key, value), End))
  {
    hide IndentOf, KeyLine, Lookup;
    KeyIsText(l);
  }

  lemma {:induction false} KeyIsText(l: string)
    requires Classify(l).Key?
    ensures Strip(l) != ""
  {
    hide Strip, OpenName, IsClose, KeyValue;
  }

  lemma {:induction false} KeyText(indent: string, key: string, head: string, value: string)
    requires head == key + ": "
    ensures KeyLine(indent, key, value) == indent + head + value
  {
    assert indent + key + ": " == indent + (key + ": ");
  }

  /** The lines of a link's values, at one indent. */
  function ValueRows(i: string, token: nat): Doc {
    Row(i + "knet_ping_timeout: " + Decimal(token / 2),
        Row(i + "knet_ping_interval: " + Decimal(token / 20),
            Row(i + "knet_pong_count: " + "2", End)))
  }

  /** The three values are put one by one behind the link number, at its indent. */
  lemma {:induction false} PutValues(io: string, n: string, i: string, token: nat)
    requires Classify(n).Key? && Classify(n).key == "linknumber" && IndentOf(n) == i
    ensures PutAll(io, Row(n, End), HeartbeatValues(token)) == Row(n, ValueRows(i, token))
  {
    hide KeyLine, Decimal, Classify, IndentOf, IsName, Trimmed;
    Names();
    var t, u := Decimal(token / 2), Decimal(token / 20);
    var p, q, c := KeyLine(i, "knet_ping_timeout", t), KeyLine(i, "knet_ping_interval", u), KeyLine(i, "knet_pong_count", "2");
    KeyText(i, "knet_ping_timeout", "knet_ping_timeout: ", t);
    KeyText(i, "knet_ping_interval", "knet_ping_interval: ", u);
    KeyText(i, "knet_pong_count", "knet_pong_count: ", "2");
    DecimalTrimmed(token / 2);
    DecimalTrimmed(token / 20);
    KeyLineRead(i, "knet_ping_timeout", t);
    KeyLineRead(i, "knet_ping_interval", u);
    KeysDiffer();
    hide Lookup, PutKey, PutAll;
    var b1, b2, b3 := Row(n, Row(p, End)), Row(n, Row(p, Row(q, End))), Row(n, Row(p, Row(q, Row(c, End))));
    LookupStep(n, End, "linknumber", Classify(n).value, "knet_ping_timeout");
    PutAtEnd(io, n, End, i, "knet_ping_timeout", t);
    LookupStep(n, Row(p, End), "linknumber", Classify(n).value, "knet_ping_interval");
    LookupStep(p, End, "knet_ping_timeout", t, "knet_ping_interval");
    PutAtEnd(io, n, Row(p, End), i, "knet_ping_interval", u);
    LookupStep(n, Row(p, Row(q, End)), "linknumber", Classify(n).value, "knet_pong_count");
    LookupStep(p, Row(q, End), "knet_ping_timeout", t, "knet_pong_count");
    LookupStep(q, End, "knet_ping_interval", u, "knet_pong_count");
    PutAtEnd(io, n, Row(p, Row(q, End)), i, "knet_pong_count", "2");
    assert Append(Row(n, End), Row(p, End)) == b1;
    assert Append(Row(p, End), Row(q, End)) == Row(p, Row(q, End));
    assert Append(Row(n, Row(p, End)), Row(q, End)) == b2;
    assert Append(Row(q, End), Row(c, End)) == Row(q, Row(c, End));
    assert Append(Row(p, Row(q, End)), Row(c, End)) == Row(p, Row(q, Row(c, End)));
    assert Append(Row(n, Row(p, Row(q, End))), Row(c, End)) == b3;
    PutThree(io, Row(n, End), b1, b2, b3, token);
  }

  lemma {:induction false} PutThree(io: string, b0: Doc, b1: Doc, b2: Doc, b3: Doc, token: nat)
    requires PutKey(io, b0, "knet_ping_timeout", Decimal(token / 2)) == b1
    requires PutKey(io, b1, "knet_ping_interval", Decimal(token / 20)) == b2
    requires PutKey(io, b2, "knet_pong_count", "2") == b3
    ensures PutAll(io, b0, HeartbeatValues(token)) == b3
  {
    hide PutKey, Decimal;
    var pairs := HeartbeatValues(token);
    assert pairs[1..][1..][1..] == [];
    assert PutAll(io, b3, pairs[1..][1..][1..]) == b3;
    assert PutAll(io, b2, pairs[1..][1..]) == b3;
    assert PutAll(io, b1, pairs[1..]) == b3;
  }

  lemma {:induction false} BraceText(i: string)
    ensures OpenLine(i, "interface") == i + "interface {" && CloseLine(i) == i + "}"
  {
    assert i + "interface" + " {" == i + ("interface" + " {");
  }

  lemma {:induction false} Deeper(i: string)
    requires AllSpace(i)
    ensures AllSpace(i + "    ")
  {
  }

  lemma {:induction false} Names()
    ensures IsName("linknumber") && IsName("interface") && IsName("token")
    ensures IsName("knet_ping_timeout") && IsName("knet_ping_interval") && IsName("knet_pong_count")
    ensures Trimmed("2")
  {
  }

  lemma {:induction false} KeysDiffer()
    ensures "linknumber" != "knet_ping_timeout" && "linknumber" != "knet_ping_interval" && "linknumber" != "knet_pong_count"
    ensures "knet_ping_timeout" != "knet_ping_interval" && "knet_ping_timeout" != "knet_pong_count"
    ensures "knet_ping_interval" != "knet_pong_count"
  {
    assert |"linknumber"| == 10 && |"knet_ping_timeout"| == 17 && |"knet_ping_interval"| == 18 && |"knet_pong_count"| == 15;
  }

  lemma {:induction false} LookupStep(l: string, rest: Doc, k: string, v: string, key: string)
    requires Classify(l) == Key(k, v)
    ensures Lookup(Row(l, rest), key) == if k == key then Some(v) else Lookup(rest, key)
    ensures Lookup(End, key) == None
  {
    hide Classify;
  }

  lemma {:induction false} ZeroIsZero()
    ensures Decimal(0) == "0"
  {
  }

  /** The block of a link that has none. */
  lemma {:induction false} BlockText(i: string, link: nat)
    requires AllSpace(i)
    ensures NewIface(i, link) == Block(i + "interface {", Row(i + "    " + "linknumber: " + Decimal(link), End), i + "}", End)
    ensures Classify(i + "interface {") == Open("interface") && Classify(i + "    " + "linknumber: " + Decimal(link)) == Key("linknumber", Decimal(link))
    ensures IndentOf(i + "    " + "linknumber: " + Decimal(link)) == i + "    "
  {
    hide Classify, IndentOf, KeyLine, OpenLine, CloseLine, Decimal, IsName, AllSpace, Trimmed;
    KeyText(i + "    ", "linknumber", "linknumber: ", Decimal(link));
    BraceText(i);
    Deeper(i);
    Names();
    DecimalTrimmed(link);
    KeyLineRead(i + "    ", "linknumber", Decimal(link));
    OpenLineRead(i, "interface");
  }

  /** An empty totem section without a nodelist becomes exactly these lines, four columns
      further in at each step. */
  lemma {:induction false} EmptyTotem(o: string, c: string, token: nat)
    requires Classify(o) == Open("totem")
    ensures var i := IndentOf(o) + "    ";
            Configure(Block(o, End, c, End), token)
            == Block(o,
                     Row(i + "token: " + Decimal(token),
                         Block(i + "interface {",
                               Row(i + "    " + "linknumber: " + "0", ValueRows(i + "    ", token)),
                               i + "}", End)),
                     c, End)
  {
    var d, i, t := Block(o, End, c, End), IndentOf(o) + "    ", Decimal(token);
    var r := i + "token: " + t;
    hide Classify, IndentOf, Decimal, KeyLine, HeartbeatValues, PutAll, IsName, AllSpace, ValueRows, NewIface, SetLinks, Trimmed;
    Names();
    ZeroIsZero();
    Deeper(IndentOf(o));
    KeyText(i, "token", "token: ", t);
    DecimalTrimmed(token);
    NoNodelist(o, c);
    KeyLineRead(i, "token", t);
    assert PutKey(o, End, "token", t) == Row(r, End);
    KeyIsText(r);
    BlockText(i, 0);
    var io, n, e := i + "interface {", i + "    " + "linknumber: " + "0", i + "}";
    EmptyLink(o, r, io, n, e, i, token);
  }

  lemma {:induction false} NoNodelist(o: string, c: string)
    requires Classify(o) == Open("totem")
    ensures Links(Block(o, End, c, End)) == [0]
  {
    hide Classify;
    assert Rings(End) == {};
  }

  lemma {:induction false} EmptyLink(o: string, r: string, io: string, n: string, e: string, i: string, token: nat)
    requires Classify(r).Key? && Strip(r) != "" && IndentOf(r) == i
    requires Decimal(0) == "0" && NewIface(i, 0) == Block(io, Row(n, End), e, End)
    requires Classify(io) == Open("interface") && Classify(n) == Key("linknumber", "0") && IndentOf(n) == i + "    "
    ensures SetLinks(o, Row(r, End), [0], HeartbeatValues(token)) == Row(r, Block(io, Row(n, ValueRows(i + "    ", token)), e, End))
  {
    hide Classify, IndentOf, Decimal, HeartbeatValues, PutAll, Strip, ValueRows, NewIface;
    assert FirstText(Row(r, End)) == Some(r) && ChildIndent(o, Row(r, End)) == i;
    assert !HasIface(End, 0) && !HasIface(Row(r, End), 0);
    assert Append(End, Block(io, Row(n, End), e, End)) == Block(io, Row(n, End), e, End);
    assert EnsureIface(o, Row(r, End), 0) == Row(r, Block(io, Row(n, End), e, End));
    PutValues(io, n, i + "    ", token);
    var b, b' := Row(n, End), Row(n, ValueRows(i + "    ", token));
    LookupStep(n, End, "linknumber", "0", "linknumber");
    assert IfaceNumber(b) == "0";
    assert IsIface(io, b, 0);
    var k := Block(io, b, e, End);
    assert HasIface(k, 0) && Iface(k, 0) == (io, b) && SetIface(k, 0, b') == Block(io, b', e, End);
    assert HasIface(Row(r, k), 0) && Iface(Row(r, k), 0) == (io, b) && SetIface(Row(r, k), 0, b') == Row(r, Block(io, b', e, End));
    hide HasIface, Iface, SetIface, EnsureIface;
    assert SetLink(o, Row(r, End), 0, HeartbeatValues(token)) == Row(r, Block(io, Row(n, ValueRows(i + "    ", token)), e, End));
    assert [0][1..] == [];
  }
}
