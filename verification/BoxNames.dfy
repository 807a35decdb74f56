/** The names boxes go by: a fat box `<role>-<os><major>`, and the base image
    `<stem>_vagrant_box_image_0_<timestamp>_box.img` a box is imported as. Both read back
    uniquely. */
module BoxNames {
  import opened Wrappers
  import opened Text

  // ----- fat boxes ----------------------------------------------------------------------

  const FAMILIES: set<string> := {"ubuntu", "rhel"}

  /** An OS selection, such as `rhel:9`. */
  datatype OsRef = OsRef(family: string, major: nat)

  predicate IsLower(c: char) { 'a' <= c <= 'z' }

  predicate AllLower(s: string) { forall i :: 0 <= i < |s| ==> IsLower(s[i]) }

  function Token(os: OsRef): string { os.family + Decimal(os.major) }

  /** The generated fat-box name of a role on an OS. */
  function BoxName(role: string, os: OsRef): string { role + "-" + Token(os) }

  predicate KnownOs(os: OsRef) { os.family in FAMILIES }

  lemma {:induction false} FamiliesAreLower(family: string)
    requires family in FAMILIES
    ensures family != "" && AllLower(family)
  {
  }

  /** Cutting a text where its letters end is unambiguous. */
  lemma {:induction false} LettersThenDigits(f: string, d: string, f': string, d': string)
    requires AllLower(f) && AllLower(f') && AllDigits(d) && AllDigits(d') && f + d == f' + d'
    ensures f == f' && d == d'
  {
    SpanLowerAt(f, d);
    SpanLowerAt(f', d');
    assert f == (f + d)[..|f|] && d == (f + d)[|f|..];
    assert f' == (f' + d')[..|f'|] && d' == (f' + d')[|f'|..];
  }

  /** The length of the leading run of letters. */
  function SpanLower(s: string): (n: nat)
    ensures n <= |s| && AllLower(s[..n]) && (n < |s| ==> !IsLower(s[n]))
  {
    if s == "" || !IsLower(s[0]) then 0
    else
      var m := SpanLower(s[1..]);
      assert s[..m + 1] == [s[0]] + s[1..][..m];
      m + 1
  }

  lemma {:induction false} SpanLowerAt(f: string, d: string)
    requires AllLower(f) && AllDigits(d)
    ensures SpanLower(f + d) == |f|
  {
    if f != "" {
      assert (f + d)[1..] == f[1..] + d;
      SpanLowerAt(f[1..], d);
    } else {
      assert f + d == d;
    }
  }

  /** Where the last dash of a text is, or 0. */
  function LastDashAt(s: string): nat {
    if s == "" then 0 else if s[|s| - 1] == '-' then |s| - 1 else LastDashAt(s[..|s| - 1])
  }

  lemma {:induction false} LastDashIs(r: string, t: string)
    requires '-' !in t
    ensures LastDashAt(r + "-" + t) == |r|
  {
    var s := r + "-" + t;
    if t != "" {
      assert s[|s| - 1] == t[|t| - 1];
      assert s[..|s| - 1] == r + "-" + t[..|t| - 1];
      LastDashIs(r, t[..|t| - 1]);
    }
  }

  /** So is cutting at the last dash. */
  lemma {:induction false} LastDash(r: string, t: string, r': string, t': string)
    requires '-' !in t && '-' !in t' && r + "-" + t == r' + "-" + t'
    ensures r == r' && t == t'
  {
    var a, b := r + "-" + t, r' + "-" + t';
    LastDashIs(r, t);
    LastDashIs(r', t');
    assert r == a[..|r|] && r' == b[..|r'|];
    assert t == a[|r| + 1..] && t' == b[|r'| + 1..];
  }

  lemma {:induction false} TokenHasNoDash(os: OsRef)
    requires KnownOs(os)
    ensures '-' !in Token(os)
  {
    FamiliesAreLower(os.family);
    var f, d := os.family, Decimal(os.major);
    forall i | 0 <= i < |f + d| ensures (f + d)[i] != '-' {
      assert (f + d)[i] == if i < |f| then f[i] else d[i - |f|];
    }
  }

  /** No two roles or OS majors share a box name, so de-duplicating by name loses no box. */
  lemma {:induction false} BoxNameInjective(role: string, os: OsRef, role': string, os': OsRef)
    requires KnownOs(os) && KnownOs(os')
    ensures BoxName(role, os) == BoxName(role', os') <==> role == role' && os == os'
  {
    if BoxName(role, os) == BoxName(role', os') {
      TokenHasNoDash(os);
      TokenHasNoDash(os');
      LastDash(role, Token(os), role', Token(os'));
      FamiliesAreLower(os.family);
      FamiliesAreLower(os'.family);
      LettersThenDigits(os.family, Decimal(os.major), os'.family, Decimal(os'.major));
      DecimalInjective(os.major, os'.major);
    }
  }

  /** `name` has the generated shape for some catalog role and known family. */
  ghost predicate Generated(name: string, roles: seq<string>) {
    exists role, family, digits :: role in roles && Shaped(name, role, family, digits)
  }

  ghost predicate Shaped(name: string, role: string, family: string, digits: string) {
    (family == "ubuntu" || family == "rhel") && digits != "" && AllDigits(digits) && name == role + "-" + family + digits
  }

  /** The full match of an OS token: letters of a known family, then digits. */
  predicate IsOsToken(s: string) {
    var n := SpanLower(s);
    n < |s| && s[..n] in FAMILIES && forall i :: n <= i < |s| ==> IsDigit(s[i])
  }

  lemma {:induction false} OsTokenIff(s: string)
    ensures IsOsToken(s) <==> exists f, d :: f in FAMILIES && d != "" && AllDigits(d) && s == f + d
  {
    var n := SpanLower(s);
    if IsOsToken(s) {
      var f, d := s[..n], s[n..];
      assert s == f + d && d != "";
    }
    if f, d :| f in FAMILIES && d != "" && AllDigits(d) && s == f + d {
      FamiliesAreLower(f);
      SpanLowerAt(f, d);
      assert s[..n] == f && s[n..] == d;
      forall i | n <= i < |s| ensures IsDigit(s[i]) {
        assert s[i] == d[i - n];
      }
    }
  }

  /** Whether a name has the generated fat-box shape. */
  method GeneratedBoxName(name: string, roles: seq<string>) returns (r: bool)
    ensures r == Generated(name, roles)
  {
    for i := 0 to |roles|
      invariant forall role, f, d :: role in roles[..i] ==> !Shaped(name, role, f, d)
    {
      var prefix := roles[i] + "-";
      if prefix <= name {
        OsTokenIff(name[|prefix|..]);
        if IsOsToken(name[|prefix|..]) {
          ghost var f, d :| f in FAMILIES && d != "" && AllDigits(d) && name[|prefix|..] == f + d;
          assert name == prefix + name[|prefix|..] == prefix + f + d;
          assert Shaped(name, roles[i], f, d);
          return true;
        }
      }
      forall f, d ensures !Shaped(name, roles[i], f, d) {
        NotShaped(name, roles[i], f, d);
      }
      assert roles[..i + 1] == roles[..i] + [roles[i]];
    }
    assert roles[..|roles|] == roles;
    return false;
  }

  lemma {:induction false} NotShaped(name: string, role: string, f: string, d: string)
    requires !(role + "-" <= name && IsOsToken(name[|role| + 1..]))
    ensures !Shaped(name, role, f, d)
  {
    if Shaped(name, role, f, d) {
      assert name == role + "-" + (f + d);
      assert name[|role| + 1..] == f + d;
      OsTokenIff(f + d);
    }
  }

  /** Every box the catalog can name is a reclaim candidate. */
  lemma {:induction false} BoxNameIsGenerated(role: string, os: OsRef, roles: seq<string>)
    requires role in roles && KnownOs(os)
    ensures Generated(BoxName(role, os), roles)
  {
    assert role + "-" + (os.family + Decimal(os.major)) == role + "-" + os.family + Decimal(os.major);
    assert Shaped(BoxName(role, os), role, os.family, Decimal(os.major));
  }

  // ----- base images --------------------------------------------------------------------

  const INFIX := "_vagrant_box_image_0_"
  const SUFFIX := "_box.img"

  /** A box base image: its box stem and import timestamp. */
  datatype Image = Image(stem: string, ts: nat)

  /** The match of a volume name against the base-image pattern. */
  function ParseImage(name: string): Option<Image> {
    if !EndsWith(name, SUFFIX) then None
    else
      var base := name[..|name| - |SUFFIX|];
      var n := DigitsFrom(base);
      var head := base[..n];
      if n == |base| || !EndsWith(head, INFIX) || |head| == |INFIX| then None
      else Some(Image(head[..n - |INFIX|], ParseNat(base[n..])))
  }

  function ImageName(stem: string, digits: string): string { stem + INFIX + digits + SUFFIX }

  /** A name is an image exactly when it is a non-empty stem, the fixed infix, a non-empty
      run of digits and the suffix; the cut is unique. */
  lemma {:induction false} ImagePattern(name: string, image: Image)
    ensures ParseImage(name) == Some(image) <==>
            && image.stem != ""
            && exists d :: d != "" && AllDigits(d) && ParseNat(d) == image.ts
                           && name == image.stem + "_vagrant_box_image_0_" + d + "_box.img"
  {
    if ParseImage(name) == Some(image) {
      ImageIsName(name, image);
    }
    if d :| image.stem != "" && d != "" && AllDigits(d) && ParseNat(d) == image.ts
            && name == image.stem + "_vagrant_box_image_0_" + d + "_box.img" {
      NameIsImage(image.stem, d);
    }
  }

  lemma {:induction false} ImageIsName(name: string, image: Image)
    requires ParseImage(name) == Some(image)
    ensures image.stem != "" && exists d :: d != "" && AllDigits(d) && ParseNat(d) == image.ts && name == ImageName(image.stem, d)
  {
    var base := name[..|name| - |SUFFIX|];
    var n := DigitsFrom(base);
    var head, d := base[..n], base[n..];
    assert name == base + SUFFIX && base == head + d;
    assert head == head[..n - |INFIX|] + INFIX;
    assert name == ImageName(image.stem, d);
  }

  lemma {:induction false} NameIsImage(stem: string, d: string)
    requires stem != "" && d != "" && AllDigits(d)
    ensures ParseImage(ImageName(stem, d)) == Some(Image(stem, ParseNat(d)))
  {
    var name := ImageName(stem, d);
    var head := stem + INFIX;
    assert name == head + d + SUFFIX;
    assert name[|name| - |SUFFIX|..] == SUFFIX && name[..|name| - |SUFFIX|] == head + d;
    assert head[|head| - 1] == INFIX[|INFIX| - 1] == '_';
    DigitsFromAt(head, d);
    assert (head + d)[..|head|] == head && (head + d)[|head|..] == d;
    assert head[|head| - |INFIX|..] == INFIX && head[..|head| - |INFIX|] == stem;
  }
}
