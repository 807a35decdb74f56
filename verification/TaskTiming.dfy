/** Reading ansible task durations out of a transcript. */
module TaskTiming {
  import opened Wrappers
  import opened Text

  // ----- lines --------------------------------------------------------------------------

  /** What one transcript line says; seconds are in thousandths. */
  datatype Kind = Banner(name: string) | Timing(millis: nat) | Good | Fatal | Other

  predicate AllStars(s: string) { forall i :: 0 <= i < |s| ==> s[i] == '*' }

  /** Drops the trailing stars. */
  function BeforeStars(s: string): (n: nat)
    ensures n <= |s| && AllStars(s[n..]) && (n > 0 ==> s[n - 1] != '*')
  {
    if s == "" || s[|s| - 1] != '*' then |s|
    else
      var n := BeforeStars(s[..|s| - 1]);
      assert s[n..] == s[..|s| - 1][n..] + [s[|s| - 1]];
      n
  }

  /** What stands before the closing run of stars, if there is one. */
  function Head(line: string): Option<string> {
    var body := RStrip(line);
    var n := BeforeStars(body);
    if n == |body| then None else Some(body[..n])
  }

  const OPEN := "TASK ["
  const CLOSE := "] "

  /** `TASK [<name>] ***`. */
  function BannerName(line: string): Option<string> {
    match Head(line)
    case None => None
    case Some(h) =>
      if OPEN <= h && EndsWith(h, CLOSE) && |h| > |OPEN| + |CLOSE| then Some(h[|OPEN|..|h| - |CLOSE|]) else None
  }

  predicate Digits(s: string, n: nat) { |s| == n && AllDigits(s) }

  /** A clock `h:mm:ss.fff` at the end of a text: what precedes it, and its thousandths. */
  function CutClock(s: string): Option<(string, nat)> {
    if |s| < 10 then None
    else
      var rest, tail := s[..|s| - 10], s[|s| - 10..];
      var n := DigitsFrom(rest);
      if !IsTail(tail) || n == |rest| then None else Some((rest[..n], ClockMillis(rest[n..], tail)))
  }

  /** `:mm:ss.fff`. */
  predicate IsTail(t: string) {
    |t| == 10 && t[0] == ':' && Digits(t[1..3], 2) && t[3] == ':' && Digits(t[4..6], 2) && t[6] == '.' && Digits(t[7..], 3)
  }

  function ClockMillis(h: string, t: string): nat
    requires AllDigits(h) && IsTail(t)
  {
    ((ParseNat(h) * 60 + ParseNat(t[1..3])) * 60 + ParseNat(t[4..6])) * 1000 + ParseNat(t[7..])
  }

  /** `... (h:mm:ss.fff)   h:mm:ss.fff ***`: the parenthesised clock. */
  function TimingMillis(line: string): Option<nat> {
    match Head(line)
    case None => None
    case Some(h) =>
      if h == "" || h[|h| - 1] != ' ' then None
      else
        match CutClock(h[..|h| - 1])
        case None => None
        case Some((before, _)) =>
          var inner := RStrip(before);
          if |inner| == |before| || !EndsWith(inner, ")") then None
          else
            match CutClock(inner[..|inner| - 1])
            case None => None
            case Some((start, millis)) => if EndsWith(start, "(") then Some(millis) else None
  }

  /** A clock `h:mm:ss.fff`. */
  datatype Clock = Clock(h: string, m: string, s: string, f: string)

  function TailOf(c: Clock): string { ":" + c.m + ":" + c.s + "." + c.f }

  function ClockText(c: Clock): string { c.h + TailOf(c) }

  predicate ValidClock(c: Clock) {
    c.h != "" && AllDigits(c.h) && Digits(c.m, 2) && Digits(c.s, 2) && Digits(c.f, 3)
  }

  function Millis(c: Clock): nat
    requires ValidClock(c)
  {
    ((ParseNat(c.h) * 60 + ParseNat(c.m)) * 60 + ParseNat(c.s)) * 1000 + ParseNat(c.f)
  }

  lemma {:induction false} TailParts(c: Clock)
    requires ValidClock(c)
    ensures |TailOf(c)| == 10 && IsTail(TailOf(c)) && ClockMillis(c.h, TailOf(c)) == Millis(c)
  {
    hide ParseNat, AllDigits;
    var t := TailOf(c);
    assert t[1..3] == c.m && t[4..6] == c.s && t[7..] == c.f;
  }

  lemma {:induction false} CutClockOf(p: string, c: Clock)
    requires ValidClock(c) && (p != "" ==> !IsDigit(p[|p| - 1]))
    ensures CutClock(p + ClockText(c)) == Some((p, Millis(c)))
  {
    hide DigitsFrom, TailOf, AllDigits, Digits, IsTail, ClockMillis, Millis;
    var tail := TailOf(c);
    TailParts(c);
    assert p + ClockText(c) == (p + c.h) + tail;
    hide ClockText;
    Parted(p + c.h, tail);
    DigitsFromAt(p, c.h);
    Parted(p, c.h);
  }

  lemma {:induction false} Parted(a: string, b: string)
    ensures (a + b)[|a + b| - |b|..] == b && (a + b)[..|a + b| - |b|] == a && (a + b)[|a|..] == b && (a + b)[..|a|] == a
  {
  }

  /** What is cut off the end of a text is a clock. */
  lemma {:induction false} CutIsClock(text: string) returns (c: Clock)
    requires CutClock(text).Some?
    ensures ValidClock(c) && text == CutClock(text).value.0 + ClockText(c) && Millis(c) == CutClock(text).value.1
  {
    hide AllDigits, DigitsFrom, TailOf, IsTail, ClockMillis, Millis;
    var rest, tail := text[..|text| - 10], text[|text| - 10..];
    var n := DigitsFrom(rest);
    c := TailIs(rest[n..], tail);
    assert rest[..n] + ClockText(c) == (rest[..n] + c.h) + tail;
    assert rest == rest[..n] + c.h;
    assert text == rest + tail;
  }

  lemma {:induction false} TailIs(h: string, t: string) returns (c: Clock)
    requires AllDigits(h) && h != "" && IsTail(t)
    ensures ValidClock(c) && c.h == h && TailOf(c) == t && ClockMillis(h, t) == Millis(c)
  {
    hide ParseNat, AllDigits;
    c := Clock(h, t[1..3], t[4..6], t[7..]);
    assert |TailOf(c)| == 10;
    assert t[0] == ':' && t[3] == ':' && t[6] == '.';
    assert TailOf(c) == t;
  }

  /** `... (h:mm:ss.fff)   h:mm:ss.fff ***`, piece by piece. */
  ghost predicate TimingForm(line: string, date: string, c: Clock, gap: string, total: Clock, stars: string, space: string) {
    && ValidClock(c) && ValidClock(total) && gap != "" && AllSpace(gap)
    && stars != "" && AllStars(stars) && AllSpace(space)
    && line == date + "(" + ClockText(c) + ")" + gap + ClockText(total) + " " + stars + space
  }

  /** A line is a `profile_tasks` line exactly when it ends in a parenthesised clock, white
      space, a clock, a space, stars, and white space; the first clock is the duration. */
  lemma {:induction false} TimingIff(line: string, n: nat)
    ensures TimingMillis(line) == Some(n) <==>
            exists date, c, gap, total, stars, space :: TimingForm(line, date, c, gap, total, stars, space) && n == Millis(c)
  {
    hide TimingMillis, Millis, ValidClock, ClockText, AllSpace, AllStars;
    if TimingMillis(line) == Some(n) {
      var date, c, gap, total, stars, space := TimingParts(line);
    }
    if date, c, gap, total, stars, space :| TimingForm(line, date, c, gap, total, stars, space) && n == Millis(c) {
      TimingRead(line, date, c, gap, total, stars, space);
    }
  }

  lemma {:induction false} TimingParts(line: string)
    returns (date: string, c: Clock, gap: string, total: Clock, stars: string, space: string)
    requires TimingMillis(line).Some?
    ensures TimingForm(line, date, c, gap, total, stars, space) && TimingMillis(line) == Some(Millis(c))
  {
    hide ParseNat, CutClock, Millis, ClockText, RStrip, BeforeStars, AllStars, AllSpace, ValidClock;
    var body := RStrip(line);
    var k := BeforeStars(body);
    var h := body[..k];
    stars, space := body[k..], line[|body|..];
    var before := CutClock(h[..|h| - 1]).value.0;
    total := CutIsClock(h[..|h| - 1]);
    assert h == before + ClockText(total) + " ";
    var inner := RStrip(before);
    gap := before[|inner|..];
    var start := CutClock(inner[..|inner| - 1]).value.0;
    c := CutIsClock(inner[..|inner| - 1]);
    date := start[..|start| - 1];
    assert start == date + "(" && inner == start + ClockText(c) + ")";
    assert line == body + space && body == h + stars && before == inner + gap;
    assert line == date + "(" + ClockText(c) + ")" + gap + ClockText(total) + " " + stars + space;
  }

  lemma {:induction false} TimingRead(
      line: string, date: string, c: Clock, gap: string, total: Clock, stars: string, space: string)
    requires TimingForm(line, date, c, gap, total, stars, space)
    ensures TimingMillis(line) == Some(Millis(c))
  {
    hide ParseNat, CutClock, ClockText, Head, RStrip, Millis, ValidClock;
    var inner := date + "(" + ClockText(c) + ")";
    var head := inner + gap + ClockText(total) + " ";
    HeadOf(head, stars, space);
    assert line == head + stars + space;
    assert head[..|head| - 1] == (inner + gap) + ClockText(total);
    assert (inner + gap)[|inner + gap| - 1] == gap[|gap| - 1];
    SpaceIsNoDigit(gap[|gap| - 1]);
    CutClockOf(inner + gap, total);
    RStripPadded(inner, gap);
    assert inner[|inner| - 1] == ')' && inner[|inner| - 1..] == ")";
    assert inner[..|inner| - 1] == (date + "(") + ClockText(c);
    CutClockOf(date + "(", c);
    assert (date + "(")[|date|..] == "(";
  }

  lemma {:induction false} SpaceIsNoDigit(c: char)
    requires IsSpace(c)
    ensures !IsDigit(c)
  {
  }

  const OK_PREFIX := "ok: ["
  const CHANGED_PREFIX := "changed: ["
  const FATAL_PREFIX := "fatal: ["

  function KindOf(line: string): Kind {
    if BannerName(line).Some? then Banner(BannerName(line).value)
    else if TimingMillis(line).Some? then Timing(TimingMillis(line).value)
    else if OK_PREFIX <= line || CHANGED_PREFIX <= line then Good
    else if FATAL_PREFIX <= line then Fatal
    else Other
  }

  lemma {:induction false} StarsBefore(h: string, stars: string)
    requires AllStars(stars) && (h != "" ==> h[|h| - 1] != '*')
    ensures BeforeStars(h + stars) == |h|
  {
    if stars == "" {
      assert h + stars == h;
    } else {
      assert (h + stars)[..|h + stars| - 1] == h + stars[..|stars| - 1];
      StarsBefore(h, stars[..|stars| - 1]);
    }
  }

  lemma {:induction false} HeadOf(h: string, stars: string, space: string)
    requires AllStars(stars) && stars != "" && AllSpace(space) && (h != "" ==> h[|h| - 1] != '*')
    ensures Head(h + stars + space) == Some(h)
  {
    assert (h + stars)[|h + stars| - 1] == stars[|stars| - 1];
    RStripPadded(h + stars, space);
    StarsBefore(h, stars);
    assert (h + stars)[..|h|] == h;
  }

  /** A line is a banner exactly when it is the bracketed name, a space, stars, and white
      space; the name is unique even when it contains brackets. */
  lemma {:induction false} BannerIff(line: string, name: string)
    ensures BannerName(line) == Some(name) <==>
            name != "" && exists stars, space :: stars != "" && AllStars(stars) && AllSpace(space) && line == OPEN + name + CLOSE + stars + space
  {
    hide AllStars, AllSpace, BeforeStars, RStrip;
    if BannerName(line) == Some(name) {
      var stars, space := BannerParts(line, name);
    }
    if stars, space :| name != "" && stars != "" && AllStars(stars) && AllSpace(space) && line == OPEN + name + CLOSE + stars + space {
      BannerRead(name, stars, space);
    }
  }

  lemma {:induction false} BannerParts(line: string, name: string) returns (stars: string, space: string)
    requires BannerName(line) == Some(name)
    ensures name != "" && stars != "" && AllStars(stars) && AllSpace(space) && line == OPEN + name + CLOSE + stars + space
  {
    hide AllStars, AllSpace, BeforeStars, RStrip;
    var body := RStrip(line);
    var n := BeforeStars(body);
    var h := body[..n];
    stars, space := body[n..], line[|body|..];
    assert h == OPEN + name + CLOSE;
    assert line == h + stars + space;
  }

  lemma {:induction false} BannerRead(name: string, stars: string, space: string)
    requires name != "" && stars != "" && AllStars(stars) && AllSpace(space)
    ensures BannerName(OPEN + name + CLOSE + stars + space) == Some(name)
  {
    hide AllStars, AllSpace, BeforeStars, RStrip;
    var h := OPEN + name + CLOSE;
    assert h[|h| - 1] == CLOSE[1] == ' ';
    HeadOf(h, stars, space);
    assert h[|h| - |CLOSE|..] == CLOSE && h[..|OPEN|] == OPEN;
    assert h[|OPEN|..|h| - |CLOSE|] == name;
  }

  // ----- what a line says, spelled out --------------------------------------------------

  ghost predicate BannerLine(line: string, name: string) {
    name != "" && exists stars, space ::
      stars != "" && AllStars(stars) && AllSpace(space) && line == "TASK [" + name + "] " + stars + space
  }

  /** Hours of any length, two digits of minutes, two of seconds, three of thousandths. */
  ghost predicate Reads(text: string, millis: nat) {
    exists h, m, s, f :: ReadsAs(text, millis, h, m, s, f)
  }

  ghost predicate ReadsAs(text: string, millis: nat, h: string, m: string, s: string, f: string) {
    && h != "" && AllDigits(h) && AllDigits(m) && AllDigits(s) && AllDigits(f) && |m| == 2 && |s| == 2 && |f| == 3
    && text == h + ":" + m + ":" + s + "." + f
    && millis == ParseNat(h) * 3600000 + ParseNat(m) * 60000 + ParseNat(s) * 1000 + ParseNat(f)
  }

  ghost predicate Timed(line: string, date: string, clock: string, gap: string, total: string, end: string) {
    line == date + "(" + clock + ")" + gap + total + " " + end && gap != "" && AllSpace(gap)
  }

  /** The parenthesised clock of two, before stars. */
  ghost predicate TimingLine(line: string, millis: nat) {
    exists date, clock, gap, total, all: nat, stars, space ::
      && Timed(line, date, clock, gap, total, stars + space) && stars != "" && AllStars(stars) && AllSpace(space)
      && Reads(clock, millis) && Reads(total, all)
  }

  ghost predicate Says(line: string, kind: Kind) {
    match kind
    case Banner(name) => BannerLine(line, name)
    case Timing(millis) => TimingLine(line, millis)
    case Good => ("ok: [" <= line || "changed: [" <= line) && forall n: nat :: !TimingLine(line, n)
    case Fatal => "fatal: [" <= line && forall n: nat :: !TimingLine(line, n)
    case Other =>
      && !("ok: [" <= line) && !("changed: [" <= line) && !("fatal: [" <= line)
      && (forall name :: !BannerLine(line, name)) && forall n: nat :: !TimingLine(line, n)
  }

  /** Every line says exactly one thing. */
  lemma {:induction false} KindIff(line: string, kind: Kind)
    ensures KindOf(line) == kind <==> Says(line, kind)
  {
    hide BannerName, TimingMillis, BannerLine, TimingLine;
    forall name ensures BannerName(line) == Some(name) <==> BannerLine(line, name) {
      BannerLineIff(line, name);
    }
    forall n: nat ensures TimingMillis(line) == Some(n) <==> TimingLine(line, n) {
      TimingLineIff(line, n);
    }
    if BannerName(line).Some? {
      BannerAlone(line, BannerName(line).value);
    }
    if TimingMillis(line).Some? {
      assert TimingLine(line, TimingMillis(line).value);
    }
    PrefixesApart(line);
  }

  lemma {:induction false} PrefixesApart(line: string)
    ensures "fatal: [" <= line ==> !("ok: [" <= line) && !("changed: [" <= line)
  {
    assert "fatal: [" <= line ==> line[0] == 'f';
    assert "ok: [" <= line ==> line[0] == 'o';
    assert "changed: [" <= line ==> line[0] == 'c';
  }

  lemma {:induction false} BannerLineIff(line: string, name: string)
    ensures BannerName(line) == Some(name) <==> BannerLine(line, name)
  {
    BannerIff(line, name);
  }

  lemma {:induction false} ReadsIff(text: string, millis: nat)
    ensures Reads(text, millis) <==> exists c :: ValidClock(c) && ClockText(c) == text && Millis(c) == millis
  {
    hide ReadsAs, ValidClock, ClockText, Millis;
    if h, m, s, f :| ReadsAs(text, millis, h, m, s, f) {
      ReadsClock(text, millis, Clock(h, m, s, f));
    }
    if c :| ValidClock(c) && ClockText(c) == text && Millis(c) == millis {
      ReadsClock(text, millis, c);
    }
  }

  lemma {:induction false} ReadsClock(text: string, millis: nat, c: Clock)
    ensures ReadsAs(text, millis, c.h, c.m, c.s, c.f) <==> ValidClock(c) && ClockText(c) == text && Millis(c) == millis
  {
    hide ParseNat, AllDigits;
    Written(c);
  }

  lemma {:induction false} Written(c: Clock)
    ensures ClockText(c) == c.h + ":" + c.m + ":" + c.s + "." + c.f
  {
  }

  lemma {:induction false} TimingLineIff(line: string, n: nat)
    ensures TimingMillis(line) == Some(n) <==> TimingLine(line, n)
  {
    hide TimingMillis, Reads, ValidClock, ClockText, Millis, AllStars, AllSpace;
    TimingIff(line, n);
    if date, c, gap, total, stars, space :| TimingForm(line, date, c, gap, total, stars, space) && n == Millis(c) {
      ReadsIff(ClockText(c), n);
      ReadsIff(ClockText(total), Millis(total));
      assert Timed(line, date, ClockText(c), gap, ClockText(total), stars + space);
    }
    if date, clock, gap, total, all: nat, stars, space :|
      && Timed(line, date, clock, gap, total, stars + space) && stars != "" && AllStars(stars) && AllSpace(space)
      && Reads(clock, n) && Reads(total, all)
    {
      ReadsIff(clock, n);
      ReadsIff(total, all);
      var c :| ValidClock(c) && ClockText(c) == clock && Millis(c) == n;
      var t :| ValidClock(t) && ClockText(t) == total && Millis(t) == all;
      assert TimingForm(line, date, c, gap, t, stars, space);
    }
  }

  /** A banner starts with none of the result prefixes, and is no timing line: a bracket, not a
      digit, stands before its last blank. */
  lemma {:induction false} BannerAlone(line: string, name: string)
    requires BannerLine(line, name)
    ensures !("ok: [" <= line) && !("changed: [" <= line) && !("fatal: [" <= line) && TimingMillis(line) == None
  {
    hide CutClock, AllStars, AllSpace, BeforeStars, RStrip;
    var stars, space :| stars != "" && AllStars(stars) && AllSpace(space) && line == "TASK [" + name + "] " + stars + space;
    var h := "TASK [" + name + "] ";
    assert h[|h| - 1] == ' ' && h[|h| - 2] == ']' && h[0] == 'T' == line[0];
    HeadOf(h, stars, space);
    NoClock(h[..|h| - 1]);
  }

  lemma {:induction false} NoClock(s: string)
    requires s != "" && !IsDigit(s[|s| - 1])
    ensures CutClock(s) == None
  {
    if |s| >= 10 {
      var tail := s[|s| - 10..];
      assert tail[7..][2] == s[|s| - 1];
    }
  }

  // ----- outcomes -----------------------------------------------------------------------

  /** `millis` is None while the task has not finished. */
  datatype TaskOutcome = TaskOutcome(millis: Option<nat>, ok: bool, failed: bool)

  predicate IsTiming(line: string) { KindOf(line).Timing? }

  /** The banner at `b` still waits for its timing line just before `i`. */
  ghost predicate Waiting(lines: seq<string>, b: nat, i: nat, name: string) {
    b < i <= |lines| && KindOf(lines[b]) == Banner(name)
    && forall k :: b < k < i ==> !KindOf(lines[k]).Banner? && !IsTiming(lines[k])
  }

  /** A run of `name` starts at line `i`: the timing line right after its banner. */
  ghost predicate StartsAt(lines: seq<string>, i: nat, name: string) {
    i < |lines| && IsTiming(lines[i]) && exists b :: Waiting(lines, b, i, name)
  }

  ghost predicate FirstStart(lines: seq<string>, i: nat, name: string) {
    StartsAt(lines, i, name) && forall j: nat :: j < i ==> !StartsAt(lines, j, name)
  }

  /** Line `k` belongs to the run that started at `i`: no timing line in between. */
  ghost predicate During(lines: seq<string>, i: nat, k: nat) {
    i < k < |lines| && forall m :: i < m < k ==> !IsTiming(lines[m])
  }

  /** The run that started at `i`, read off the log: its duration is on the next timing line. */
  ghost predicate Tells(lines: seq<string>, i: nat, o: TaskOutcome) {
    && (o.millis.Some? <==> exists k: nat :: During(lines, i, k) && IsTiming(lines[k]))
    && (forall k: nat :: During(lines, i, k) && IsTiming(lines[k]) ==> o.millis == Some(KindOf(lines[k]).millis))
    && (o.ok <==> exists k: nat :: During(lines, i, k) && KindOf(lines[k]).Good?)
    && (o.failed <==> exists k: nat :: During(lines, i, k) && KindOf(lines[k]).Fatal?)
  }

  /** The declarative reading: the first started run of each named task. */
  ghost predicate Reading(lines: seq<string>, names: set<string>, out: map<string, TaskOutcome>) {
    && (forall n :: n in out <==> n in names && exists i :: FirstStart(lines, i, n))
    && (forall n, i: nat :: n in out && FirstStart(lines, i, n) ==> Tells(lines, i, out[n]))
  }

  /** At most one outcome is unfinished. */
  lemma {:induction false} OneUnfinished(
      lines: seq<string>, names: set<string>, out: map<string, TaskOutcome>, m: string, n: string)
    requires Reading(lines, names, out) && m in out && n in out && out[m].millis == None && out[n].millis == None
    ensures m == n
  {
    hide KindOf;
    var i :| FirstStart(lines, i, m);
    var j :| FirstStart(lines, j, n);
    NextTiming(lines, i, j);
    NextTiming(lines, j, i);
    assert i == j;
    var a :| Waiting(lines, a, i, m);
    var b :| Waiting(lines, b, j, n);
    assert a == b;
  }

  /** A timing line after `i` means some line is the next one. */
  lemma {:induction false} NextTiming(lines: seq<string>, i: nat, j: nat)
    requires j < |lines| && IsTiming(lines[j])
    ensures i < j ==> exists k: nat :: During(lines, i, k) && IsTiming(lines[k])
    decreases j
  {
    if i < j {
      if m :| i < m < j && IsTiming(lines[m]) {
        NextTiming(lines, i, m);
      } else {
        assert During(lines, i, j);
      }
    }
  }

  /** Appending lines never changes a finished outcome. */
  lemma {:induction false} FinishedStays(
      lines: seq<string>, more: seq<string>, names: set<string>, out: map<string, TaskOutcome>,
      out': map<string, TaskOutcome>, n: string)
    requires Reading(lines, names, out) && Reading(lines + more, names, out') && n in out
    ensures n in out' && (out[n].millis.Some? ==> out'[n] == out[n])
  {
    hide KindOf, Tells;
    var i :| FirstStart(lines, i, n);
    FirstStartStays(lines, more, i, n);
    if out[n].millis.Some? {
      FinishedTells(lines, more, i, out[n]);
      TellsUnique(lines + more, i, out[n], out'[n]);
    }
  }

  lemma {:induction false} FirstStartStays(lines: seq<string>, more: seq<string>, i: nat, n: string)
    requires i < |lines|
    ensures FirstStart(lines + more, i, n) <==> FirstStart(lines, i, n)
  {
    hide KindOf;
    var all := lines + more;
    forall j: nat | j <= i ensures StartsAt(all, j, n) <==> StartsAt(lines, j, n) {
      forall b: nat | b < j ensures Waiting(all, b, j, n) <==> Waiting(lines, b, j, n) {
        assert forall k :: b <= k < j ==> all[k] == lines[k];
      }
    }
  }

  lemma {:induction false} FinishedTells(lines: seq<string>, more: seq<string>, i: nat, o: TaskOutcome)
    requires Tells(lines, i, o) && o.millis.Some?
    ensures Tells(lines + more, i, o)
  {
    hide KindOf;
    var all := lines + more;
    var e: nat :| During(lines, i, e) && IsTiming(lines[e]);
    assert all[e] == lines[e];
    forall k: nat ensures During(all, i, k) <==> During(lines, i, k) {
      if k < |lines| {
        assert forall m :: i < m <= k ==> all[m] == lines[m];
      }
    }
  }

  lemma {:induction false} TellsUnique(lines: seq<string>, i: nat, o: TaskOutcome, p: TaskOutcome)
    requires Tells(lines, i, o) && Tells(lines, i, p)
    ensures o == p
  {
    hide KindOf;
  }

  // ----- the reader ---------------------------------------------------------------------

  /** The latest banner that still waits at the end of the lines. */
  ghost predicate BannerIs(lines: seq<string>, banner: Option<string>) {
    forall n :: banner == Some(n) <==> exists b :: Waiting(lines, b, |lines|, n)
  }

  /** The active task is the one unfinished outcome. */
  ghost predicate ActiveIs(out: map<string, TaskOutcome>, active: Option<string>) {
    forall n :: active == Some(n) <==> n in out && out[n].millis == None
  }

  /** Reads a transcript line by line, tracking the waiting banner and the running task. */
  method AnsibleTaskOutcomes(lines: seq<string>, names: set<string>) returns (out: map<string, TaskOutcome>)
    ensures Reading(lines, names, out) && exists active: Option<string> :: ActiveIs(out, active)
  {
    hide KindOf, Reading, BannerIs;
    out := map[];
    var banner: Option<string> := None;
    var active: Option<string> := None;
    NothingRead(names);
    assert lines[..0] == [];
    for i := 0 to |lines|
      invariant Reading(lines[..i], names, out) && BannerIs(lines[..i], banner) && ActiveIs(out, active)
    {
      var line, kind := lines[i], KindOf(lines[i]);
      ghost var seen, was, waiting := lines[..i], out, banner;
      assert lines[..i + 1] == seen + [line];
      match kind {
        case Banner(name) =>
          banner := Some(name);
        case Timing(millis) =>
          if active.Some? {
            out := out[active.value := out[active.value].(millis := Some(millis))];
            active := None;
          }
          if banner.Some? && banner.value in names && banner.value !in out {
            out := out[banner.value := TaskOutcome(None, false, false)];
            active := banner;
          }
          banner := None;
        case Good =>
          if active.Some? {
            out := out[active.value := out[active.value].(ok := true)];
          }
        case Fatal =>
          if active.Some? {
            out := out[active.value := out[active.value].(failed := true)];
          }
        case Other =>
      }
      BannerStep(seen, line, waiting, banner);
      ReadingStep(seen, line, names, was, out, waiting);
    }
    assert lines[..|lines|] == lines;
  }

  lemma {:induction false} NothingRead(names: set<string>)
    ensures Reading([], names, map[]) && BannerIs([], None)
  {
  }

  lemma {:induction false} BannerStep(lines: seq<string>, line: string, banner: Option<string>, next: Option<string>)
    requires BannerIs(lines, banner)
    requires next == match KindOf(line) case Banner(n) => Some(n) case Timing(_) => None case _ => banner
    ensures BannerIs(lines + [line], next)
  {
    hide KindOf;
    var all := lines + [line];
    forall n ensures next == Some(n) <==> exists b :: Waiting(all, b, |all|, n) {
      forall b: nat | b < |lines| ensures Waiting(all, b, |all|, n) <==> Waiting(lines, b, |lines|, n) && !KindOf(line).Banner? && !IsTiming(line) {
        assert all[|lines|] == line;
        assert forall k :: b <= k < |lines| ==> all[k] == lines[k];
      }
      if KindOf(line) == Banner(n) {
        assert Waiting(all, |lines|, |all|, n);
      }
    }
  }

  /** One more line, as a whole: what each outcome becomes. */
  ghost function Updated(
      names: set<string>, out: map<string, TaskOutcome>, kind: Kind, banner: Option<string>, n: string): Option<TaskOutcome> {
    if n in out then
      var o := out[n];
      if o.millis.Some? then Some(o)
      else
        match kind
        case Timing(millis) => Some(o.(millis := Some(millis)))
        case Good => Some(o.(ok := true))
        case Fatal => Some(o.(failed := true))
        case _ => Some(o)
    else if kind.Timing? && banner == Some(n) && n in names then Some(TaskOutcome(None, false, false))
    else None
  }

  lemma {:induction false} ReadingStep(
      lines: seq<string>, line: string, names: set<string>, out: map<string, TaskOutcome>,
      next: map<string, TaskOutcome>, banner: Option<string>)
    requires Reading(lines, names, out) && BannerIs(lines, banner)
    requires forall n :: (if n in next then Some(next[n]) else None) == Updated(names, out, KindOf(line), banner, n)
    ensures Reading(lines + [line], names, next)
  {
    hide KindOf, Tells, FirstStart, Updated, BannerIs;
    var all := lines + [line];
    forall n ensures n in next <==> n in names && exists i :: FirstStart(all, i, n) {
      KeyStep(lines, line, names, out, banner, n);
    }
    forall n, i: nat | n in next && FirstStart(all, i, n) ensures Tells(all, i, next[n]) {
      assert Updated(names, out, KindOf(line), banner, n) == Some(next[n]);
      ToldStep(lines, line, names, out, banner, n, i, next[n]);
    }
  }

  lemma {:induction false} KeyStep(
      lines: seq<string>, line: string, names: set<string>, out: map<string, TaskOutcome>, banner: Option<string>, n: string)
    requires Reading(lines, names, out) && BannerIs(lines, banner)
    ensures Updated(names, out, KindOf(line), banner, n).Some? <==> n in names && exists i :: FirstStart(lines + [line], i, n)
  {
    hide KindOf, Tells, FirstStart, BannerIs;
    StartStep(lines, line, banner, n);
    var all := lines + [line];
    if n in names {
      if n in out {
        var i :| FirstStart(lines, i, n);
        StartsInside(lines, i, n);
        assert FirstStart(all, i, n);
      } else if i :| FirstStart(all, i, n) {
        StartsInside(all, i, n);
        assert i == |lines|;
      }
    }
  }

  lemma {:induction false} StartsInside(lines: seq<string>, i: nat, n: string)
    requires FirstStart(lines, i, n)
    ensures i < |lines|
  {
    hide KindOf;
  }

  lemma {:induction false} ToldStep(
      lines: seq<string>, line: string, names: set<string>, out: map<string, TaskOutcome>, banner: Option<string>, n: string,
      i: nat, o: TaskOutcome)
    requires Reading(lines, names, out) && BannerIs(lines, banner)
    requires Updated(names, out, KindOf(line), banner, n) == Some(o) && FirstStart(lines + [line], i, n)
    ensures Tells(lines + [line], i, o)
  {
    hide KindOf, Tells, FirstStart, BannerIs;
    StartStep(lines, line, banner, n);
    StartsInside(lines + [line], i, n);
    if i < |lines| {
      TellsStep(lines, line, i, out[n], o);
    } else {
      JustStarted(lines + [line], i, o);
    }
  }

  /** A further line starts a run exactly when it is the timing line of the waiting banner. */
  lemma {:induction false} StartStep(lines: seq<string>, line: string, banner: Option<string>, n: string)
    requires BannerIs(lines, banner)
    ensures var all := lines + [line];
            && (forall i: nat | i < |lines| :: FirstStart(all, i, n) <==> FirstStart(lines, i, n))
            && (FirstStart(all, |lines|, n) <==> IsTiming(line) && banner == Some(n) && forall i :: !FirstStart(lines, i, n))
  {
    hide KindOf;
    var all := lines + [line];
    forall i: nat | i < |lines| ensures FirstStart(all, i, n) <==> FirstStart(lines, i, n) {
      FirstStartStays(lines, [line], i, n);
    }
    forall b: nat | b < |lines| ensures Waiting(all, b, |lines|, n) <==> Waiting(lines, b, |lines|, n) {
      assert forall k :: b <= k < |lines| ==> all[k] == lines[k];
    }
    assert StartsAt(all, |lines|, n) <==> IsTiming(line) && banner == Some(n);
    if i :| 0 <= i < |lines| && StartsAt(all, i, n) {
      HasFirst(all, i, n);
    }
  }

  lemma {:induction false} HasFirst(lines: seq<string>, i: nat, n: string)
    requires StartsAt(lines, i, n)
    ensures exists j: nat :: j <= i && FirstStart(lines, j, n)
  {
    hide StartsAt;
    if j: nat :| j < i && StartsAt(lines, j, n) {
      HasFirst(lines, j, n);
    } else {
      assert FirstStart(lines, i, n);
    }
  }

  lemma {:induction false} JustStarted(lines: seq<string>, i: nat, o: TaskOutcome)
    requires i == |lines| - 1 && o == TaskOutcome(None, false, false)
    ensures Tells(lines, i, o)
  {
    hide KindOf;
  }

  lemma {:induction false} TellsStep(lines: seq<string>, line: string, i: nat, o: TaskOutcome, p: TaskOutcome)
    requires i < |lines| && Tells(lines, i, o)
    requires p == if o.millis.Some? then o
                  else match KindOf(line)
                       case Timing(millis) => o.(millis := Some(millis))
                       case Good => o.(ok := true)
                       case Fatal => o.(failed := true)
                       case _ => o
    ensures Tells(lines + [line], i, p)
  {
    hide KindOf;
    var all := lines + [line];
    if o.millis.Some? {
      FinishedTells(lines, [line], i, o);
    } else {
      forall k: nat | k < |lines| ensures During(all, i, k) <==> During(lines, i, k) {
        assert forall m :: i < m <= k ==> all[m] == lines[m];
      }
      assert forall k :: 0 <= k < |lines| ==> all[k] == lines[k];
      assert During(all, i, |lines|) by {
        NoTimingYet(lines, i);
      }
      assert all[|lines|] == line;
      forall k | During(all, i, k) ensures k == |lines| || During(lines, i, k) {
      }
      assert IsTiming(line) <==> KindOf(line).Timing?;
    }
  }

  lemma {:induction false} NoTimingYet(lines: seq<string>, i: nat)
    requires i < |lines| && !exists k: nat :: During(lines, i, k) && IsTiming(lines[k])
    ensures forall m :: i < m < |lines| ==> !IsTiming(lines[m])
  {
    hide KindOf;
    forall m | i < m < |lines| ensures !IsTiming(lines[m]) {
      if IsTiming(lines[m]) {
        NextTiming(lines, i, m);
      }
    }
  }
}
