/** The order of semantic versions: precedence (section 11 of SemVer 2.0.0), and between
    versions of equal precedence the build metadata, as the `semver` crate orders them. */
module SemVer {
  import opened Lex

  /** A dot-separated pre-release identifier. */
  datatype Identifier = Numeric(value: nat) | Alphanumeric(text: string)

  /** A dot-separated part of the build metadata. Digits may have leading zeros, so their
      width counts too. */
  datatype BuildPart = Digits(value: nat, width: nat) | Text(text: string)

  datatype Version = Version(major: nat, minor: nat, patch: nat, pre: seq<Identifier>, build: seq<BuildPart>)

  predicate IdentifierLess(a: Identifier, b: Identifier) {
    match (a, b)
    case (Numeric(x), Numeric(y)) => x < y
    case (Numeric(_), Alphanumeric(_)) => true
    case (Alphanumeric(_), Numeric(_)) => false
    case (Alphanumeric(s), Alphanumeric(t)) => NameLess(s, t)
  }

  /** `0 < 00 < 1 < 01 < 2`, and digits before text. */
  predicate BuildPartLess(a: BuildPart, b: BuildPart) {
    match (a, b)
    case (Digits(x, m), Digits(y, n)) => if x != y then x < y else m < n
    case (Digits(_, _), Text(_)) => true
    case (Text(_), Digits(_, _)) => false
    case (Text(s), Text(t)) => NameLess(s, t)
  }

  /** A release is above all of its pre-releases. */
  predicate PreLess(a: seq<Identifier>, b: seq<Identifier>) {
    a != [] && (b == [] || LexLess(IdentifierLess, a, b))
  }

  predicate Less(a: Version, b: Version) {
    if a.major != b.major then a.major < b.major
    else if a.minor != b.minor then a.minor < b.minor
    else if a.patch != b.patch then a.patch < b.patch
    else if a.pre != b.pre then PreLess(a.pre, b.pre)
    else LexLess(BuildPartLess, a.build, b.build)
  }

  lemma IdentifierLessIsStrictTotal()
    ensures StrictTotal(IdentifierLess)
  {
    forall x: Identifier ensures !IdentifierLess(x, x) {
      if x.Alphanumeric? { NameOrder(x.text, x.text, x.text); }
    }
    forall x: Identifier, y: Identifier, z: Identifier | IdentifierLess(x, y) && IdentifierLess(y, z)
      ensures IdentifierLess(x, z)
    {
      if x.Alphanumeric? { NameOrder(x.text, y.text, z.text); }
    }
    forall x: Identifier, y: Identifier ensures x == y || IdentifierLess(x, y) || IdentifierLess(y, x) {
      if x.Alphanumeric? && y.Alphanumeric? { NameOrder(x.text, y.text, y.text); }
    }
  }

  lemma BuildPartLessIsStrictTotal()
    ensures StrictTotal(BuildPartLess)
  {
    forall x: BuildPart ensures !BuildPartLess(x, x) {
      if x.Text? { NameOrder(x.text, x.text, x.text); }
    }
    forall x: BuildPart, y: BuildPart, z: BuildPart | BuildPartLess(x, y) && BuildPartLess(y, z)
      ensures BuildPartLess(x, z)
    {
      if x.Text? { NameOrder(x.text, y.text, z.text); }
    }
    forall x: BuildPart, y: BuildPart ensures x == y || BuildPartLess(x, y) || BuildPartLess(y, x) {
      if x.Text? && y.Text? { NameOrder(x.text, y.text, y.text); }
    }
  }

  /** Versions are strictly and totally ordered. */
  lemma VersionLessIsStrictTotal(a: Version, b: Version, c: Version)
    ensures !Less(a, a)
    ensures Less(a, b) && Less(b, c) ==> Less(a, c)
    ensures a == b || Less(a, b) || Less(b, a)
  {
    IdentifierLessIsStrictTotal();
    BuildPartLessIsStrictTotal();
    LexLaws(IdentifierLess, a.pre, b.pre, c.pre);
    LexLaws(IdentifierLess, b.pre, c.pre, a.pre);
    LexLaws(BuildPartLess, a.build, b.build, c.build);
  }

  /** The lists agree up to `k`. There the first has ended, or holds the smaller number, or
      a number against text, or the earlier text. */
  predicate IdentifierDecides(a: seq<Identifier>, b: seq<Identifier>, k: nat) {
    && k <= |a| && k < |b| && a[..k] == b[..k]
    && (|| k == |a|
        || (a[k].Numeric? && b[k].Numeric? && a[k].value < b[k].value)
        || (a[k].Numeric? && b[k].Alphanumeric?)
        || (a[k].Alphanumeric? && b[k].Alphanumeric? && NameLess(a[k].text, b[k].text)))
  }

  /** The same for build metadata, where equal numbers are decided by their width. */
  predicate BuildDecides(a: seq<BuildPart>, b: seq<BuildPart>, k: nat) {
    && k <= |a| && k < |b| && a[..k] == b[..k]
    && (|| k == |a|
        || (a[k].Digits? && b[k].Digits? && a[k].value < b[k].value)
        || (a[k].Digits? && b[k].Digits? && a[k].value == b[k].value && a[k].width < b[k].width)
        || (a[k].Digits? && b[k].Text?)
        || (a[k].Text? && b[k].Text? && NameLess(a[k].text, b[k].text)))
  }

  lemma PreDecides(a: seq<Identifier>, b: seq<Identifier>)
    ensures LexLess(IdentifierLess, a, b) <==> exists k: nat :: IdentifierDecides(a, b, k)
  {
    LexIff(IdentifierLess, a, b);
    forall k: nat ensures PartsBelow(IdentifierLess, a, b, k) <==> IdentifierDecides(a, b, k) {
      if k < |a| && k < |b| && a[k].Alphanumeric? {
        NameOrder(a[k].text, a[k].text, a[k].text);
      }
    }
  }

  lemma MetadataDecides(a: seq<BuildPart>, b: seq<BuildPart>)
    ensures LexLess(BuildPartLess, a, b) <==> exists k: nat :: BuildDecides(a, b, k)
  {
    LexIff(BuildPartLess, a, b);
    forall k: nat ensures PartsBelow(BuildPartLess, a, b, k) <==> BuildDecides(a, b, k) {
      if k < |a| && k < |b| && a[k].Text? {
        NameOrder(a[k].text, a[k].text, a[k].text);
      }
    }
  }

  /** The order read outright: the core decides; then a pre-release is below its release,
      and below a pre-release at the first identifier where they part; then the build. */
  lemma PrecedenceIff(a: Version, b: Version)
    ensures Less(a, b) <==>
            || a.major < b.major
            || (a.major == b.major && a.minor < b.minor)
            || (a.major == b.major && a.minor == b.minor && a.patch < b.patch)
            || (&& a.major == b.major && a.minor == b.minor && a.patch == b.patch
                && (|| (a.pre != [] && b.pre == [])
                    || (a.pre != [] && exists k: nat :: IdentifierDecides(a.pre, b.pre, k))
                    || (a.pre == b.pre && exists k: nat :: BuildDecides(a.build, b.build, k))))
  {
    IdentifierLessIsStrictTotal();
    PreDecides(a.pre, b.pre);
    LexIrreflexive(IdentifierLess, a.pre);
    MetadataDecides(a.build, b.build);
  }

  /** Two releases that differ only in build metadata are in order, not equal. */
  lemma BuildMetadataOrders()
    ensures Less(Version(1, 0, 0, [], [Text("a")]), Version(1, 0, 0, [], [Text("b")]))
  {
    assert NameLess("a", "b");
  }
}
