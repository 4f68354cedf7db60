/**
 * Semantic versions as the dumper's version gate reads them: a version record,
 * its text form, a parser for the SemVer 2.0.0 grammar and the precedence
 * order of section 11 of Semantic Versioning 2.0.0 (build metadata is kept but
 * never takes part in precedence, section 10).
 */
module SemVer {
  import opened Wrappers
  import opened Strings

  /** A dot-separated pre-release identifier: numeric, or made of letters, digits and hyphens. */
  datatype Identifier = Numeric(n: nat) | Alphanumeric(s: string)

  datatype Version = Version(major: nat, minor: nat, patch: nat, pre: seq<Identifier>, build: seq<string>)

  // ---------------------------------------------------------------------------
  // Well-formedness and text form
  // ---------------------------------------------------------------------------

  predicate IdentChar(c: char) {
    IsDigit(c) || 'A' <= c <= 'Z' || 'a' <= c <= 'z' || c == '-'
  }

  predicate IdentChars(s: string) { forall i :: 0 <= i < |s| ==> IdentChar(s[i]) }

  predicate ValidIdentifier(id: Identifier) {
    match id
    case Numeric(_) => true
    case Alphanumeric(s) => |s| > 0 && IdentChars(s) && !AllDigits(s)
  }

  predicate ValidBuildIdentifier(s: string) { |s| > 0 && IdentChars(s) }

  predicate WellFormed(v: Version) {
    && (forall k :: 0 <= k < |v.pre| ==> ValidIdentifier(v.pre[k]))
    && (forall k :: 0 <= k < |v.build| ==> ValidBuildIdentifier(v.build[k]))
  }

  function IdentifierText(id: Identifier): string {
    match id
    case Numeric(n) => NatToString(n)
    case Alphanumeric(s) => s
  }

  function Texts(ids: seq<Identifier>): (r: seq<string>)
    ensures |r| == |ids|
  {
    seq(|ids|, k requires 0 <= k < |ids| => IdentifierText(ids[k]))
  }

  function FormatCore(major: nat, minor: nat, patch: nat): string {
    Join([NatToString(major), NatToString(minor), NatToString(patch)], '.')
  }

  function PreSuffix(pre: seq<Identifier>): string {
    if pre == [] then "" else "-" + Join(Texts(pre), '.')
  }

  function BuildSuffix(build: seq<string>): string {
    if build == [] then "" else "+" + Join(build, '.')
  }

  /** `major.minor.patch[-pre][+build]` */
  function Format(v: Version): string {
    FormatCore(v.major, v.minor, v.patch) + PreSuffix(v.pre) + BuildSuffix(v.build)
  }

  // ---------------------------------------------------------------------------
  // Parsing
  // ---------------------------------------------------------------------------

  function ParseNumber(s: string): (r: Option<nat>)
    ensures r.Some? <==> Canonical(s)
  {
    if Canonical(s) then Some(DigitsToNat(s)) else None
  }

  /** A numeric identifier must be canonical; anything else needs a non-digit. */
  function ParseIdentifier(s: string): (r: Option<Identifier>)
    ensures r.Some? ==> ValidIdentifier(r.value)
  {
    if s == [] || !IdentChars(s) then None
    else if AllDigits(s) then (if Canonical(s) then Some(Numeric(DigitsToNat(s))) else None)
    else Some(Alphanumeric(s))
  }

  function ParseCore(s: string): Option<(nat, nat, nat)> {
    var parts := Split(s, '.');
    if |parts| == 3 && Canonical(parts[0]) && Canonical(parts[1]) && Canonical(parts[2])
    then Some((DigitsToNat(parts[0]), DigitsToNat(parts[1]), DigitsToNat(parts[2])))
    else None
  }

  function ParsePre(t: Option<string>): (r: Option<seq<Identifier>>)
    ensures r.Some? ==> forall k :: 0 <= k < |r.value| ==> ValidIdentifier(r.value[k])
  {
    match t
    case None => Some([])
    case Some(text) =>
      var parts := Split(text, '.');
      if forall k :: 0 <= k < |parts| ==> ParseIdentifier(parts[k]).Some?
      then Some(seq(|parts|, k requires 0 <= k < |parts| => ParseIdentifier(parts[k]).value))
      else None
  }

  function ParseBuild(t: Option<string>): (r: Option<seq<string>>)
    ensures r.Some? ==> forall k :: 0 <= k < |r.value| ==> ValidBuildIdentifier(r.value[k])
  {
    match t
    case None => Some([])
    case Some(text) =>
      var parts := Split(text, '.');
      if forall k :: 0 <= k < |parts| ==> ValidBuildIdentifier(parts[k]) then Some(parts) else None
  }

  /**
   * `SemVersion.Parse` read strictly: `None` stands for the exception thrown
   * on malformed text, and also for the shorter forms (such as `2022.0`) that
   * the library's lenient default would accept.
   */
  function Parse(s: string): (r: Option<Version>)
    ensures r.Some? ==> WellFormed(r.value)
  {
    var plus := CutAt(s, '+');
    var dash := CutAt(plus.before, '-');
    match (ParseCore(dash.before), ParsePre(dash.after), ParseBuild(plus.after))
    case (Some(c), Some(pre), Some(build)) => Some(Version(c.0, c.1, c.2, pre, build))
    case _ => None
  }

  // ---------------------------------------------------------------------------
  // Parse and Format are inverse to each other
  // ---------------------------------------------------------------------------

  lemma NoSymbolInNumber(n: nat, x: char)
    requires !IsDigit(x)
    ensures x !in NatToString(n)
  {
  }

  lemma IdentifierRoundTrip(id: Identifier)
    requires ValidIdentifier(id)
    ensures ParseIdentifier(IdentifierText(id)) == Some(id)
  {
    match id
    case Numeric(n) => DigitsToNatOfNatToString(n);
    case Alphanumeric(_) =>
  }

  lemma FormatCoreParts(major: nat, minor: nat, patch: nat)
    ensures Split(FormatCore(major, minor, patch), '.') == [NatToString(major), NatToString(minor), NatToString(patch)]
    ensures '-' !in FormatCore(major, minor, patch) && '+' !in FormatCore(major, minor, patch)
  {
    var parts := [NatToString(major), NatToString(minor), NatToString(patch)];
    SplitJoin(parts, '.');
    JoinAvoids(parts, '.', '-');
    JoinAvoids(parts, '.', '+');
  }

  lemma ParseCoreFormat(major: nat, minor: nat, patch: nat)
    ensures ParseCore(FormatCore(major, minor, patch)) == Some((major, minor, patch))
  {
    FormatCoreParts(major, minor, patch);
    DigitsToNatOfNatToString(major);
    DigitsToNatOfNatToString(minor);
    DigitsToNatOfNatToString(patch);
  }

  lemma {:induction false} PreTextAvoids(pre: seq<Identifier>)
    requires pre != [] && forall k :: 0 <= k < |pre| ==> ValidIdentifier(pre[k])
    ensures '+' !in Join(Texts(pre), '.')
    ensures Split(Join(Texts(pre), '.'), '.') == Texts(pre)
  {
    var ts := Texts(pre);
    forall k | 0 <= k < |ts| ensures '+' !in ts[k] && '.' !in ts[k] {
      match pre[k]
      case Numeric(n) => NoSymbolInNumber(n, '+'); NoSymbolInNumber(n, '.');
      case Alphanumeric(s) =>
        assert forall i :: 0 <= i < |s| ==> IdentChar(s[i]);
    }
    JoinAvoids(ts, '.', '+');
    SplitJoin(ts, '.');
  }

  lemma ParsePreFormat(pre: seq<Identifier>)
    requires pre != [] && forall k :: 0 <= k < |pre| ==> ValidIdentifier(pre[k])
    ensures ParsePre(Some(Join(Texts(pre), '.'))) == Some(pre)
  {
    PreTextAvoids(pre);
    var parts := Texts(pre);
    forall k | 0 <= k < |parts| ensures ParseIdentifier(parts[k]) == Some(pre[k]) {
      IdentifierRoundTrip(pre[k]);
    }
    var parsed := seq(|parts|, k requires 0 <= k < |parts| => ParseIdentifier(parts[k]).value);
    assert parsed == pre;
  }

  lemma ParseBuildFormat(build: seq<string>)
    requires build != [] && forall k :: 0 <= k < |build| ==> ValidBuildIdentifier(build[k])
    ensures ParseBuild(Some(Join(build, '.'))) == Some(build)
  {
    forall k | 0 <= k < |build| ensures '.' !in build[k] {
      assert forall i :: 0 <= i < |build[k]| ==> IdentChar(build[k][i]);
    }
    SplitJoin(build, '.');
  }

  /** The text before any build metadata cuts at its first '-' into the core and the pre-release. */
  lemma MainPartParses(v: Version)
    requires WellFormed(v)
    ensures var main := FormatCore(v.major, v.minor, v.patch) + PreSuffix(v.pre);
      && '+' !in main
      && ParseCore(CutAt(main, '-').before) == Some((v.major, v.minor, v.patch))
      && ParsePre(CutAt(main, '-').after) == Some(v.pre)
  {
    var core := FormatCore(v.major, v.minor, v.patch);
    var main := core + PreSuffix(v.pre);
    FormatCoreParts(v.major, v.minor, v.patch);
    ParseCoreFormat(v.major, v.minor, v.patch);
    if v.pre == [] {
      assert main == core;
      CutAtNone(main, '-');
    } else {
      PreTextAvoids(v.pre);
      ParsePreFormat(v.pre);
      assert main == core + ['-'] + Join(Texts(v.pre), '.');
      CutAtFirst(core, Join(Texts(v.pre), '.'), '-');
    }
  }

  /** Build metadata after a text without '+' is cut off at the first '+' and reads back. */
  lemma BuildPartCuts(main: string, build: seq<string>)
    requires '+' !in main
    requires forall k :: 0 <= k < |build| ==> ValidBuildIdentifier(build[k])
    ensures CutAt(main + BuildSuffix(build), '+').before == main
    ensures ParseBuild(CutAt(main + BuildSuffix(build), '+').after) == Some(build)
  {
    if build == [] {
      assert main + BuildSuffix(build) == main;
      CutAtNone(main, '+');
    } else {
      ParseBuildFormat(build);
      assert main + BuildSuffix(build) == main + ['+'] + Join(build, '.');
      CutAtFirst(main, Join(build, '.'), '+');
    }
  }

  /** Every well-formed version reads back from its text form. */
  lemma ParseFormat(v: Version)
    requires WellFormed(v)
    ensures Parse(Format(v)) == Some(v)
  {
    var main := FormatCore(v.major, v.minor, v.patch) + PreSuffix(v.pre);
    MainPartParses(v);
    BuildPartCuts(main, v.build);
    assert Format(v) == main + BuildSuffix(v.build);
    ParseOfParts(Format(v), (v.major, v.minor, v.patch), v.pre, v.build);
  }

  /** `Parse` assembles the version from the parses of its three parts. */
  lemma ParseOfParts(s: string, c: (nat, nat, nat), pre: seq<Identifier>, build: seq<string>)
    requires ParseCore(CutAt(CutAt(s, '+').before, '-').before) == Some(c)
    requires ParsePre(CutAt(CutAt(s, '+').before, '-').after) == Some(pre)
    requires ParseBuild(CutAt(s, '+').after) == Some(build)
    ensures Parse(s) == Some(Version(c.0, c.1, c.2, pre, build))
  {
  }

  lemma FormatNumberOfParse(s: string)
    requires ParseIdentifier(s).Some?
    ensures IdentifierText(ParseIdentifier(s).value) == s
  {
    if AllDigits(s) {
      NatToStringOfDigits(s);
    }
  }

  lemma FormatCoreOfParse(t: string)
    requires ParseCore(t).Some?
    ensures FormatCore(ParseCore(t).value.0, ParseCore(t).value.1, ParseCore(t).value.2) == t
  {
    var parts := Split(t, '.');
    NatToStringOfDigits(parts[0]);
    NatToStringOfDigits(parts[1]);
    NatToStringOfDigits(parts[2]);
    JoinSplit(t, '.');
    assert parts == [parts[0], parts[1], parts[2]];
  }

  lemma PreSuffixOfParse(t: string)
    requires ParsePre(Some(t)).Some?
    ensures PreSuffix(ParsePre(Some(t)).value) == "-" + t
  {
    var pre := ParsePre(Some(t)).value;
    var parts := Split(t, '.');
    JoinSplit(t, '.');
    forall k | 0 <= k < |parts| ensures Texts(pre)[k] == parts[k] {
      FormatNumberOfParse(parts[k]);
    }
    assert Texts(pre) == parts;
  }

  lemma BuildSuffixOfParse(t: string)
    requires ParseBuild(Some(t)).Some?
    ensures BuildSuffix(ParseBuild(Some(t)).value) == "+" + t
  {
    JoinSplit(t, '.');
  }

  lemma MainOfParseRelease(before: string, c: (nat, nat, nat))
    requires ParseCore(before) == Some(c)
    ensures FormatCore(c.0, c.1, c.2) + PreSuffix([]) == before
  {
    FormatCoreOfParse(before);
  }

  lemma MainOfParsePre(before: string, after: string, c: (nat, nat, nat), pre: seq<Identifier>)
    requires ParseCore(before) == Some(c)
    requires ParsePre(Some(after)) == Some(pre)
    ensures FormatCore(c.0, c.1, c.2) + PreSuffix(pre) == before + ['-'] + after
  {
    FormatCoreOfParse(before);
    PreSuffixOfParse(after);
  }

  /** The text before any '+' is the core and pre-release text of its parts. */
  lemma MainOfCut(t: string, c: (nat, nat, nat), pre: seq<Identifier>)
    requires ParseCore(CutAt(t, '-').before) == Some(c)
    requires ParsePre(CutAt(t, '-').after) == Some(pre)
    ensures FormatCore(c.0, c.1, c.2) + PreSuffix(pre) == t
  {
    var dash := CutAt(t, '-');
    if dash.after.Some? {
      MainOfParsePre(dash.before, dash.after.value, c, pre);
    } else {
      MainOfParseRelease(dash.before, c);
    }
  }

  /** A successful parse is assembled from the three parts it cuts the text into. */
  lemma ParseParts(s: string)
    requires Parse(s).Some?
    ensures var plus := CutAt(s, '+');
      var dash := CutAt(plus.before, '-');
      && ParseCore(dash.before).Some? && ParsePre(dash.after).Some? && ParseBuild(plus.after).Some?
      && Parse(s).value == Version(ParseCore(dash.before).value.0, ParseCore(dash.before).value.1,
                                   ParseCore(dash.before).value.2, ParsePre(dash.after).value,
                                   ParseBuild(plus.after).value)
  {
  }

  /** The text before the first '+' followed by the build suffix of what comes after it is the whole text. */
  lemma BuildOfCut(s: string, build: seq<string>)
    requires ParseBuild(CutAt(s, '+').after) == Some(build)
    ensures CutAt(s, '+').before + BuildSuffix(build) == s
  {
    var plus := CutAt(s, '+');
    if plus.after.Some? {
      BuildSuffixOfParse(plus.after.value);
    }
  }

  /** The text form of a version assembled from the parts of `s` is `s`. */
  lemma FormatOfParts(s: string, c: (nat, nat, nat), pre: seq<Identifier>, build: seq<string>)
    requires ParseCore(CutAt(CutAt(s, '+').before, '-').before) == Some(c)
    requires ParsePre(CutAt(CutAt(s, '+').before, '-').after) == Some(pre)
    requires ParseBuild(CutAt(s, '+').after) == Some(build)
    ensures Format(Version(c.0, c.1, c.2, pre, build)) == s
  {
    MainOfCut(CutAt(s, '+').before, c, pre);
    BuildOfCut(s, build);
  }

  /** Every text that parses is the text form of its version: Parse is one-to-one. */
  lemma FormatParse(s: string)
    requires Parse(s).Some?
    ensures Format(Parse(s).value) == s
  {
    var plus := CutAt(s, '+');
    var dash := CutAt(plus.before, '-');
    ParseParts(s);
    FormatOfParts(s, ParseCore(dash.before).value, ParsePre(dash.after).value, ParseBuild(plus.after).value);
  }

  // ---------------------------------------------------------------------------
  // Precedence (section 11): -1, 0 or 1
  // ---------------------------------------------------------------------------

  function CompareNat(a: nat, b: nat): int {
    if a < b then -1 else if a > b then 1 else 0
  }

  /** Ordinal (ASCII) lexical order; a proper prefix comes first. */
  function CompareText(a: string, b: string): (r: int)
    ensures -1 <= r <= 1
    ensures r == 0 <==> a == b
  {
    if a == [] && b == [] then 0
    else if a == [] then -1
    else if b == [] then 1
    else if a[0] < b[0] then -1
    else if a[0] > b[0] then 1
    else
      var r := CompareText(a[1..], b[1..]);
      assert a == [a[0]] + a[1..] && b == [b[0]] + b[1..];
      r
  }

  /** Numeric identifiers compare numerically and rank below alphanumeric ones. */
  function CompareIdentifier(x: Identifier, y: Identifier): int {
    match (x, y)
    case (Numeric(m), Numeric(n)) => CompareNat(m, n)
    case (Numeric(_), Alphanumeric(_)) => -1
    case (Alphanumeric(_), Numeric(_)) => 1
    case (Alphanumeric(s), Alphanumeric(t)) => CompareText(s, t)
  }

  /** Field by field from the left; when one list is a prefix of the other, the shorter ranks lower. */
  function CompareIdentifiers(xs: seq<Identifier>, ys: seq<Identifier>): (r: int)
    ensures -1 <= r <= 1
    ensures r == 0 <==> xs == ys
  {
    if xs == [] && ys == [] then 0
    else if xs == [] then -1
    else if ys == [] then 1
    else if CompareIdentifier(xs[0], ys[0]) != 0 then CompareIdentifier(xs[0], ys[0])
    else
      var r := CompareIdentifiers(xs[1..], ys[1..]);
      assert xs == [xs[0]] + xs[1..] && ys == [ys[0]] + ys[1..];
      r
  }

  /** A version without pre-release ranks above every pre-release of the same core. */
  function ComparePre(xs: seq<Identifier>, ys: seq<Identifier>): int {
    if xs == [] && ys == [] then 0
    else if xs == [] then 1
    else if ys == [] then -1
    else CompareIdentifiers(xs, ys)
  }

  /**
   * Precedence as section 11 of Semantic Versioning 2.0.0 defines it: negative,
   * zero or positive as `a` ranks below, with or above `b`.  Major, minor and
   * patch decide, in that order, as soon as one differs (section 11.2).
   */
  function Compare(a: Version, b: Version): (r: int)
    ensures a.major != b.major ==> r != 0 && (r < 0 <==> a.major < b.major)
    ensures a.major == b.major && a.minor != b.minor ==> r != 0 && (r < 0 <==> a.minor < b.minor)
    ensures a.major == b.major && a.minor == b.minor && a.patch != b.patch ==> r != 0 && (r < 0 <==> a.patch < b.patch)
  {
    if a.major != b.major then CompareNat(a.major, b.major)
    else if a.minor != b.minor then CompareNat(a.minor, b.minor)
    else if a.patch != b.patch then CompareNat(a.patch, b.patch)
    else ComparePre(a.pre, b.pre)
  }

  /**
   * The version gate's `<=`, read as section 11 of Semantic Versioning 2.0.0
   * orders versions: `a <= b` exactly when `b` does not rank below `a`, and it
   * holds between any two versions of the same precedence.
   */
  function LessOrEqual(a: Version, b: Version): (r: bool)
    ensures r <==> Compare(b, a) >= 0
    ensures SamePrecedence(a, b) ==> r
  {
    CompareAntisymmetric(a, b);
    CompareZero(a, b);
    Compare(a, b) <= 0
  }

  /** Two versions share a precedence when they agree on everything but build metadata. */
  predicate SamePrecedence(a: Version, b: Version) {
    a.major == b.major && a.minor == b.minor && a.patch == b.patch && a.pre == b.pre
  }

  // ---------------------------------------------------------------------------
  // Precedence is a total order on versions up to build metadata
  // ---------------------------------------------------------------------------

  lemma {:induction false} CompareTextAntisymmetric(a: string, b: string)
    ensures CompareText(a, b) == -CompareText(b, a)
  {
    if a != [] && b != [] && a[0] == b[0] {
      CompareTextAntisymmetric(a[1..], b[1..]);
    }
  }

  lemma {:induction false} CompareTextTransitive(a: string, b: string, c: string)
    requires CompareText(a, b) <= 0 && CompareText(b, c) <= 0
    ensures CompareText(a, c) <= 0
  {
    if a != [] && b != [] && c != [] && a[0] == b[0] == c[0] {
      CompareTextTransitive(a[1..], b[1..], c[1..]);
    }
  }

  lemma CompareIdentifierAntisymmetric(x: Identifier, y: Identifier)
    ensures CompareIdentifier(x, y) == -CompareIdentifier(y, x)
  {
    if x.Alphanumeric? && y.Alphanumeric? {
      CompareTextAntisymmetric(x.s, y.s);
    }
  }

  lemma CompareIdentifierTransitive(x: Identifier, y: Identifier, z: Identifier)
    requires CompareIdentifier(x, y) <= 0 && CompareIdentifier(y, z) <= 0
    ensures CompareIdentifier(x, z) <= 0
  {
    if x.Alphanumeric? && y.Alphanumeric? && z.Alphanumeric? {
      CompareTextTransitive(x.s, y.s, z.s);
    }
  }

  lemma CompareIdentifierZero(x: Identifier, y: Identifier)
    ensures CompareIdentifier(x, y) == 0 <==> x == y
  {
  }

  lemma {:induction false} CompareIdentifiersAntisymmetric(xs: seq<Identifier>, ys: seq<Identifier>)
    ensures CompareIdentifiers(xs, ys) == -CompareIdentifiers(ys, xs)
  {
    if xs != [] && ys != [] {
      CompareIdentifierAntisymmetric(xs[0], ys[0]);
      if CompareIdentifier(xs[0], ys[0]) == 0 {
        CompareIdentifiersAntisymmetric(xs[1..], ys[1..]);
      }
    }
  }

  lemma {:induction false} CompareIdentifiersTransitive(xs: seq<Identifier>, ys: seq<Identifier>, zs: seq<Identifier>)
    requires CompareIdentifiers(xs, ys) <= 0 && CompareIdentifiers(ys, zs) <= 0
    ensures CompareIdentifiers(xs, zs) <= 0
  {
    if xs != [] && ys != [] && zs != [] {
      CompareIdentifierZero(xs[0], ys[0]);
      CompareIdentifierZero(ys[0], zs[0]);
      CompareIdentifierZero(xs[0], zs[0]);
      CompareIdentifierTransitive(xs[0], ys[0], zs[0]);
      if xs[0] == ys[0] == zs[0] {
        CompareIdentifiersTransitive(xs[1..], ys[1..], zs[1..]);
      } else if CompareIdentifier(xs[0], zs[0]) == 0 {
        // x <= y <= z with x == z forces x == y == z
        CompareIdentifierAntisymmetric(xs[0], ys[0]);
        CompareIdentifierAntisymmetric(ys[0], zs[0]);
      }
    }
  }

  lemma CompareRange(a: Version, b: Version)
    ensures -1 <= Compare(a, b) <= 1
  {
  }

  lemma CompareAntisymmetric(a: Version, b: Version)
    ensures Compare(a, b) == -Compare(b, a)
  {
    if SamePrecedence(a, b) || (a.major == b.major && a.minor == b.minor && a.patch == b.patch) {
      CompareIdentifiersAntisymmetric(a.pre, b.pre);
    }
  }

  lemma CompareTransitive(a: Version, b: Version, c: Version)
    requires LessOrEqual(a, b) && LessOrEqual(b, c)
    ensures LessOrEqual(a, c)
  {
    if a.major == b.major == c.major && a.minor == b.minor == c.minor && a.patch == b.patch == c.patch {
      if a.pre != [] && b.pre != [] && c.pre != [] {
        CompareIdentifiersTransitive(a.pre, b.pre, c.pre);
      }
    }
  }

  /** Precedence ties exactly when everything but build metadata agrees. */
  lemma CompareZero(a: Version, b: Version)
    ensures Compare(a, b) == 0 <==> SamePrecedence(a, b)
  {
  }

  /** Section 11.3: a pre-release ranks below the release of the same core. */
  lemma PreReleaseBelowRelease(v: Version, build: seq<string>)
    requires v.pre != []
    ensures Compare(v, Version(v.major, v.minor, v.patch, [], build)) == -1
  {
  }

  /** Section 10: build metadata plays no part in precedence. */
  lemma BuildIgnored(a: Version, b: Version, build: seq<string>)
    ensures Compare(a.(build := build), b) == Compare(a, b)
    ensures Compare(b, a.(build := build)) == Compare(b, a)
  {
  }
}
