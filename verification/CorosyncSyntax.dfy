/** The lines of a corosync.conf: how each one is read, and how a text splits into lines. */
module CorosyncSyntax {
  import opened Wrappers
  import opened Text

  /** What one line means to the parser. `Skip` is a blank line or a comment; `Other` is a
      line that matches no pattern (for instance a one-line `totem { }`). */
  datatype Tok = Skip | Open(name: string) | Close | Key(key: string, value: string) | Other

  /** The section name when the line opens a section. */
  function OpenName(line: string): Option<string> {
    var r := LStrip(line);
    var n := SpanName(r);
    if n == 0 then None
    else
      var t := LStrip(r[n..]);
      if t != "" && t[0] == '{' && AllSpace(t[1..]) then Some(r[..n]) else None
  }

  predicate IsClose(line: string) {
    var r := LStrip(line);
    r != "" && r[0] == '}' && AllSpace(r[1..])
  }

  function KeyValue(line: string): Option<(string, string)> {
    var r := LStrip(line);
    var n := SpanName(r);
    if n == 0 then None
    else
      var t := LStrip(r[n..]);
      if t != "" && t[0] == ':' then Some((r[..n], Strip(t[1..]))) else None
  }

  function Classify(line: string): Tok {
    var s := Strip(line);
    if s == "" || s[0] == '#' then Skip
    else if OpenName(line).Some? then Open(OpenName(line).value)
    else if IsClose(line) then Close
    else match KeyValue(line)
      case Some(kv) => Key(kv.0, kv.1)
      case None => Other
  }

  // ----- the patterns themselves --------------------------------------------------------

  /** `^\s*(NAME)\s*\{\s*$` matches, piece by piece. */
  ghost predicate OpenForm(line: string, name: string, a: string, b: string, c: string) {
    AllSpace(a) && IsName(name) && AllSpace(b) && AllSpace(c) && line == a + (name + (b + ("{" + c)))
  }

  /** `^\s*\}\s*$` matches, piece by piece. */
  ghost predicate CloseForm(line: string, a: string, c: string) {
    AllSpace(a) && AllSpace(c) && line == a + ("}" + c)
  }

  /** `^(\s*)(NAME)\s*:\s*(.*?)\s*$` matches; the greedy and lazy parts leave `value` trimmed. */
  ghost predicate KeyForm(line: string, key: string, value: string, a: string, b: string, c: string, d: string) {
    && AllSpace(a) && IsName(key) && AllSpace(b) && AllSpace(c) && AllSpace(d) && Trimmed(value)
    && line == a + (key + (b + (":" + (c + value + d))))
  }

  /** The opening, closing and key patterns share their first steps. */
  lemma {:induction false} NameThen(a: string, name: string, b: string, rest: string)
    requires AllSpace(a) && IsName(name) && AllSpace(b)
    requires rest != "" && !IsSpace(rest[0]) && !IsNameChar(rest[0])
    ensures var line := a + (name + (b + rest));
            var r := LStrip(line);
            r == name + (b + rest) && SpanName(r) == |name| && r[..|name|] == name && LStrip(r[|name|..]) == rest
            && IndentOf(line) == a && Strip(line) != "" && Strip(line)[0] == name[0]
  {
    hide IsSpace, IsNameChar;
    Punctuation();
    var r := name + (b + rest);
    assert r[0] == name[0];
    LStripPadded(a, r);
    assert r[..|name|] == name && r[|name|..] == b + rest;
    assert b != "" ==> r[|name|] == b[0] && IsSpace(b[0]);
    assert b == "" ==> r[|name|] == rest[0];
    SpanNameAt(r, |name|);
    LStripPadded(b, rest);
    RStripHead(r);
  }

  lemma {:induction false} RStripHead(s: string)
    requires s != "" && !IsSpace(s[0])
    ensures RStrip(s) != "" && RStrip(s)[0] == s[0]
  {
    if IsSpace(s[|s| - 1]) {
      RStripHead(s[..|s| - 1]);
    }
  }

  lemma {:induction false} Punctuation()
    ensures !IsSpace('{') && !IsSpace('}') && !IsSpace(':') && !IsSpace('#')
    ensures !IsNameChar('{') && !IsNameChar('}') && !IsNameChar(':') && !IsNameChar('#')
    ensures forall c :: IsNameChar(c) ==> !IsSpace(c)
  {
  }

  /** A line that starts with a name is read by what follows the name. */
  lemma {:induction false} NamedLine(line: string, name: string, rest: string)
    requires IsName(name) && rest != "" && !IsNameChar(rest[0]) && !IsSpace(rest[0])
    requires LStrip(line) != "" && LStrip(line)[0] == name[0] && SpanName(LStrip(line)) == |name|
    requires LStrip(line)[..|name|] == name && LStrip(LStrip(line)[|name|..]) == rest
    requires Strip(line) != "" && Strip(line)[0] == name[0]
    ensures rest[0] == '{' && AllSpace(rest[1..]) ==> Classify(line) == Open(name)
    ensures rest[0] == ':' ==> Classify(line) == Key(name, Strip(rest[1..]))
  {
    hide IsSpace, IsNameChar, Strip, LStrip, SpanName;
    Punctuation();
    assert IsNameChar(name[0]);
  }

  lemma {:induction false} OpenRead(line: string, name: string, a: string, b: string, c: string)
    requires OpenForm(line, name, a, b, c)
    ensures Classify(line) == Open(name) && IndentOf(line) == a
  {
    hide IsSpace, IsNameChar;
    Punctuation();
    var rest := "{" + c;
    assert rest[0] == '{' && rest[1..] == c;
    NameThen(a, name, b, rest);
    NamedLine(line, name, rest);
  }

  lemma {:induction false} CloseRead(line: string, a: string, c: string)
    requires CloseForm(line, a, c)
    ensures Classify(line) == Close && IndentOf(line) == a
  {
    hide IsSpace, IsNameChar;
    Punctuation();
    var rest := "}" + c;
    assert rest[0] == '}' && rest[1..] == c;
    LStripPadded(a, rest);
    RStripHead(rest);
  }

  lemma {:induction false} KeyRead(line: string, key: string, value: string, a: string, b: string, c: string, d: string)
    requires KeyForm(line, key, value, a, b, c, d)
    ensures Classify(line) == Key(key, value) && IndentOf(line) == a
  {
    hide IsSpace, IsNameChar;
    Punctuation();
    var rest := ":" + (c + value + d);
    assert rest[0] == ':' && rest[1..] == c + value + d;
    assert Strip(rest[1..]) == value by { StripPadded(c, value, d); }
    NameThen(a, key, b, rest);
    NamedLine(line, key, rest);
  }

  lemma {:induction false} TakeDrop(s: string, n: nat)
    requires n <= |s|
    ensures s == s[..n] + s[n..]
  {
  }

  lemma {:induction false} CutSpace(s: string) returns (a: string, r: string)
    ensures r == LStrip(s) && AllSpace(a) && s == a + r
  {
    hide IsSpace, IsNameChar;
    var n := SpanSpace(s);
    a, r := s[..n], s[n..];
    TakeDrop(s, n);
  }

  /** Leading white space, a run of name characters, white space, and the rest. */
  lemma {:induction false} NameSplit(line: string) returns (a: string, name: string, b: string, rest: string)
    ensures AllSpace(a) && AllSpace(b) && line == a + (name + (b + rest))
    ensures name == LStrip(line)[..SpanName(LStrip(line))] && rest == LStrip(LStrip(line)[|name|..])
    ensures name != "" ==> IsName(name)
  {
    hide IsSpace, IsNameChar;
    var r, s;
    a, r := CutSpace(line);
    name := r[..SpanName(r)];
    s := r[SpanName(r)..];
    TakeDrop(r, SpanName(r));
    assert name != "" ==> IsName(name) by {
      assert forall i :: 0 <= i < |name| ==> name[i] == r[i];
    }
    b, rest := CutSpace(s);
  }

  lemma {:induction false} OpenShape(line: string) returns (a: string, b: string, c: string)
    requires OpenName(line).Some?
    ensures OpenForm(line, OpenName(line).value, a, b, c)
  {
    hide AllSpace, IsName, Trimmed, LStrip, Strip, SpanName;
    var name, rest;
    a, name, b, rest := NameSplit(line);
    c := rest[1..];
    assert rest == "{" + c;
  }

  lemma {:induction false} KeyShape(line: string) returns (a: string, b: string, c: string, d: string)
    requires KeyValue(line).Some?
    ensures KeyForm(line, KeyValue(line).value.0, KeyValue(line).value.1, a, b, c, d)
  {
    hide AllSpace, IsName, Trimmed, LStrip, Strip, SpanName;
    var name, rest;
    a, name, b, rest := NameSplit(line);
    var tail := rest[1..];
    assert KeyValue(line) == Some((name, Strip(tail)));
    assert rest == ":" + tail;
    c, d := KeyTail(tail);
  }

  lemma {:induction false} KeyTail(t: string) returns (c: string, d: string)
    ensures AllSpace(c) && AllSpace(d) && t == c + Strip(t) + d && Trimmed(Strip(t))
  {
    StripSplit(t);
    c, d :| AllSpace(c) && AllSpace(d) && t == c + Strip(t) + d;
  }

  /** A line reads as an opening exactly when the opening pattern matches it. */
  lemma {:induction false} OpenIffPattern(line: string, name: string)
    ensures Classify(line) == Open(name) <==> exists a, b, c :: OpenForm(line, name, a, b, c)
  {
    hide IsSpace, IsNameChar;
    if Classify(line) == Open(name) {
      var a, b, c := OpenShape(line);
    }
    if a, b, c :| OpenForm(line, name, a, b, c) {
      OpenRead(line, name, a, b, c);
    }
  }

  lemma {:induction false} CloseShape(line: string)
    requires Classify(line) == Close
    ensures exists a, c :: CloseForm(line, a, c)
  {
    hide IsSpace, IsNameChar, OpenName, KeyValue, Strip;
    var a, r := line[..SpanSpace(line)], LStrip(line);
    assert line == a + r && r == "}" + r[1..];
    assert CloseForm(line, a, r[1..]);
  }

  /** A line reads as a closing exactly when the closing pattern matches it. */
  lemma {:induction false} CloseIffPattern(line: string)
    ensures Classify(line) == Close <==> exists a, c :: CloseForm(line, a, c)
  {
    hide Classify, CloseForm;
    if Classify(line) == Close {
      CloseShape(line);
    }
    if a, c :| CloseForm(line, a, c) {
      CloseRead(line, a, c);
    }
  }

  /** A line reads as `key: value` exactly when the key pattern matches it. */
  lemma {:induction false} KeyIffPattern(line: string, key: string, value: string)
    ensures Classify(line) == Key(key, value) <==> exists a, b, c, d :: KeyForm(line, key, value, a, b, c, d)
  {
    hide IsSpace, IsNameChar;
    if Classify(line) == Key(key, value) {
      var a, b, c, d := KeyShape(line);
    }
    if a, b, c, d :| KeyForm(line, key, value, a, b, c, d) {
      KeyRead(line, key, value, a, b, c, d);
    }
  }

  // ----- the lines the editor writes ----------------------------------------------------

  function KeyLine(indent: string, key: string, value: string): string {
    indent + key + ": " + value
  }

  function OpenLine(indent: string, name: string): string { indent + name + " {" }

  function CloseLine(indent: string): string { indent + "}" }

  lemma {:induction false} KeyLineRead(indent: string, key: string, value: string)
    requires AllSpace(indent) && IsName(key) && Trimmed(value)
    ensures Classify(KeyLine(indent, key, value)) == Key(key, value)
    ensures IndentOf(KeyLine(indent, key, value)) == indent
  {
    var line := KeyLine(indent, key, value);
    assert line == indent + (key + ("" + (":" + (" " + value + ""))));
    KeyRead(line, key, value, indent, "", " ", "");
  }

  lemma {:induction false} OpenLineRead(indent: string, name: string)
    requires AllSpace(indent) && IsName(name)
    ensures Classify(OpenLine(indent, name)) == Open(name) && IndentOf(OpenLine(indent, name)) == indent
  {
    var line := OpenLine(indent, name);
    assert line == indent + (name + (" " + ("{" + "")));
    OpenRead(line, name, indent, " ", "");
  }

  lemma {:induction false} CloseLineRead(indent: string)
    requires AllSpace(indent)
    ensures Classify(CloseLine(indent)) == Close
  {
    assert CloseLine(indent) == indent + ("}" + "");
    CloseRead(CloseLine(indent), indent, "");
  }

  /** The link number of a `ring<N>_addr` key. */
  function RingNumber(key: string): Option<nat> {
    if |key| > 9 && key[..4] == "ring" && key[|key| - 5..] == "_addr" && AllDigits(key[4..|key| - 5])
    then Some(ParseNat(key[4..|key| - 5]))
    else None
  }

  // ----- texts and lines ----------------------------------------------------------------

  /** The characters at which `str.splitlines` breaks. */
  predicate IsBreak(c: char) {
    var n := c as int;
    0x0A <= n <= 0x0D || 0x1C <= n <= 0x1E || n == 0x85 || n == 0x2028 || n == 0x2029
  }

  predicate BreakFree(s: string) { forall i :: 0 <= i < |s| ==> !IsBreak(s[i]) }

  predicate AllBreakFree(lines: seq<string>) { forall i :: 0 <= i < |lines| ==> BreakFree(lines[i]) }

  function SpanLine(t: string): (n: nat)
    ensures n <= |t| && BreakFree(t[..n]) && (n < |t| ==> IsBreak(t[n]))
  {
    if t == "" || IsBreak(t[0]) then 0
    else
      var m := SpanLine(t[1..]);
      assert t[..m + 1] == [t[0]] + t[1..][..m];
      m + 1
  }

  /** `str.splitlines()`; a carriage return and a line feed are one break. */
  function SplitLines(t: string): (lines: seq<string>)
    ensures AllBreakFree(lines)
  {
    if t == "" then []
    else
      var n := SpanLine(t);
      if n == |t| then [t[..n]]
      else
        var w := if t[n] == '\r' && n + 1 < |t| && t[n + 1] == '\n' then 2 else 1;
        [t[..n]] + SplitLines(t[n + w..])
  }

  /** `"\n".join(lines) + "\n"`. */
  function Render(lines: seq<string>): string {
    if |lines| == 0 then "\n"
    else if |lines| == 1 then lines[0] + "\n"
    else lines[0] + "\n" + Render(lines[1..])
  }

  /** What is written reads back as the same lines. */
  lemma {:induction false} SplitRender(lines: seq<string>)
    requires |lines| > 0 && AllBreakFree(lines)
    ensures SplitLines(Render(lines)) == lines
  {
    hide SplitLines, BreakFree;
    if |lines| == 1 {
      assert Render(lines) == lines[0] + ("\n" + "");
      SplitFirst(lines[0], "");
      SplitNothing();
    } else {
      assert Render(lines) == lines[0] + ("\n" + Render(lines[1..]));
      SplitFirst(lines[0], Render(lines[1..]));
      assert forall i :: 0 <= i < |lines[1..]| ==> lines[1..][i] == lines[i + 1];
      SplitRender(lines[1..]);
      assert lines == [lines[0]] + lines[1..];
    }
  }

  lemma {:induction false} SplitNothing()
    ensures SplitLines("") == []
  {
  }

  lemma {:induction false} SplitFirst(line: string, tail: string)
    requires BreakFree(line)
    ensures SplitLines(line + ("\n" + tail)) == [line] + SplitLines(tail)
  {
    hide BreakFree;
    var t, n := line + ("\n" + tail), |line|;
    assert t[..n] == line && t[n] == '\n';
    assert t[n + 1..] == tail;
    SpanLineAt(t, n);
  }

  /** Where `str.splitlines` breaks: at each of ten characters, a carriage return taking a line
      feed right behind it along. */
  predicate LineBreak(c: char) { c as int in {0x0A, 0x0B, 0x0C, 0x0D, 0x1C, 0x1D, 0x1E, 0x85, 0x2028, 0x2029} }

  lemma {:induction false} SplitAtBreak(line: string, w: string, tail: string)
    requires forall i :: 0 <= i < |line| ==> !LineBreak(line[i])
    requires w == "\r\n" || (|w| == 1 && LineBreak(w[0]) && !("\n" <= tail && w == "\r"))
    ensures SplitLines(line + w + tail) == [line] + SplitLines(tail)
  {
    forall c ensures IsBreak(c) == LineBreak(c) {
    }
    var t, n := line + w + tail, |line|;
    assert t[..n] == line && t[n] == w[0] && t[n..] == w + tail;
    assert BreakFree(t[..n]);
    SpanLineAt(t, n);
    assert t[n + |w|..] == tail;
    if |w| == 1 && tail != "" {
      assert t[n + 1] == tail[0];
    }
  }

  /** Each written line is followed by a line feed. */
  lemma {:induction false} RenderMore(lines: seq<string>, l: string)
    ensures Render(lines + [l]) == (if lines == [] then "" else Render(lines)) + l + "\n"
  {
    if lines == [] {
      assert lines + [l] == [l];
    } else {
      assert (lines + [l])[1..] == lines[1..] + [l];
      RenderMore(lines[1..], l);
    }
  }

  lemma {:induction false} SpanLineAt(t: string, n: nat)
    requires n <= |t| && BreakFree(t[..n]) && (n < |t| ==> IsBreak(t[n]))
    ensures SpanLine(t) == n
  {
    if n > 0 {
      assert t[0] == t[..n][0];
      assert t[1..][..n - 1] == t[..n][1..];
      SpanLineAt(t[1..], n - 1);
    }
  }
}
