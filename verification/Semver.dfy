/**
 Release versions: what validateVersion accepts, and the precedence of section 11 of
 Semantic Versioning 2.0.0, proved to be a strict total order on the accepted strings.
 */
module Semver {
  import opened Text
  import opened Decimal

  // ─── Acceptance ───

  datatype Verdict = Accepted | BuildMetadata | InvalidVersion

  function FirstHyphen(v: string): (n: nat)
    ensures n <= |v|
    ensures n < |v| ==> v[n] == '-'
    ensures forall i :: 0 <= i < n ==> v[i] != '-'
  {
    if v == [] || v[0] == '-' then 0 else 1 + FirstHyphen(v[1..])
  }

  function Core(v: string): string { v[..FirstHyphen(v)] }

  predicate HasPrerelease(v: string) { FirstHyphen(v) < |v| }

  function Prerelease(v: string): string
    requires HasPrerelease(v)
  {
    v[FirstHyphen(v) + 1..]
  }

  predicate PrereleaseChar(c: char) {
    '0' <= c <= '9' || 'A' <= c <= 'Z' || 'a' <= c <= 'z' || c == '.' || c == '-'
  }

  /** The pattern: three dotted numbers, then optionally a hyphen and a nonempty prerelease. */
  predicate MatchesPattern(v: string) {
    var numbers := Split(Core(v), '.');
    && |numbers| == 3
    && (forall i :: 0 <= i < 3 ==> Digits(numbers[i]) && numbers[i] != [])
    && (HasPrerelease(v) ==>
          Prerelease(v) != [] && forall i :: 0 <= i < |Prerelease(v)| ==> PrereleaseChar(Prerelease(v)[i]))
  }

  /** An identifier is nonempty, and has no leading zero if it is a number. */
  predicate ValidIdentifier(p: string) {
    p != [] && (Digits(p) ==> Canonical(p))
  }

  /** What the semver library adds to the pattern. */
  predicate IsValid(v: string) {
    var numbers := Split(Core(v), '.');
    && (forall i :: 0 <= i < |numbers| ==> Canonical(numbers[i]))
    && (HasPrerelease(v) ==>
          forall i :: 0 <= i < |Split(Prerelease(v), '.')| ==> ValidIdentifier(Split(Prerelease(v), '.')[i]))
  }

  function ValidateVersion(v: string): Verdict {
    if '+' in v then BuildMetadata
    else if !MatchesPattern(v) then InvalidVersion
    else if !IsValid(v) then InvalidVersion
    else Accepted
  }

  predicate Accepts(v: string) { ValidateVersion(v).Accepted? }

  // ─── Precedence ───

  datatype Identifier = Numeric(n: nat) | Alphanumeric(s: string)

  datatype Version = Version(major: nat, minor: nat, patch: nat, prerelease: seq<Identifier>)

  function ToIdentifier(p: string): Identifier {
    if Digits(p) then Numeric(Value(p)) else Alphanumeric(p)
  }

  function ToIdentifiers(parts: seq<string>): (ids: seq<Identifier>)
    ensures |ids| == |parts|
    ensures forall i :: 0 <= i < |ids| ==> ids[i] == ToIdentifier(parts[i])
  {
    if parts == [] then [] else [ToIdentifier(parts[0])] + ToIdentifiers(parts[1..])
  }

  function Parse(v: string): Version
    requires Accepts(v)
  {
    var numbers := Split(Core(v), '.');
    Version(Value(numbers[0]), Value(numbers[1]), Value(numbers[2]),
      if HasPrerelease(v) then ToIdentifiers(Split(Prerelease(v), '.')) else [])
  }

  /** Numbers compare numerically and below alphanumerics, which compare in byte order. */
  predicate IdentifierLess(a: Identifier, b: Identifier) {
    match (a, b)
    case (Numeric(m), Numeric(n)) => m < n
    case (Numeric(_), Alphanumeric(_)) => true
    case (Alphanumeric(_), Numeric(_)) => false
    case (Alphanumeric(s), Alphanumeric(t)) => Less(s, t)
  }

  /** The first difference decides; a proper prefix is lower. */
  predicate ListLess(a: seq<Identifier>, b: seq<Identifier>) {
    b != [] && (a == [] || IdentifierLess(a[0], b[0]) || (a[0] == b[0] && ListLess(a[1..], b[1..])))
  }

  /** A version without prerelease is above all its prereleases. */
  predicate PrereleaseLess(a: seq<Identifier>, b: seq<Identifier>) {
    a != [] && (b == [] || ListLess(a, b))
  }

  predicate VersionLess(a: Version, b: Version) {
    || a.major < b.major
    || (a.major == b.major && a.minor < b.minor)
    || (a.major == b.major && a.minor == b.minor && a.patch < b.patch)
    || (a.major == b.major && a.minor == b.minor && a.patch == b.patch && PrereleaseLess(a.prerelease, b.prerelease))
  }

  predicate Precedes(v: string, w: string)
    requires Accepts(v) && Accepts(w)
  {
    VersionLess(Parse(v), Parse(w))
  }

  // ─── Order laws ───

  lemma IdentifierOrder(a: Identifier, b: Identifier, c: Identifier)
    ensures !IdentifierLess(a, a)
    ensures IdentifierLess(a, b) || a == b || IdentifierLess(b, a)
    ensures IdentifierLess(a, b) && IdentifierLess(b, c) ==> IdentifierLess(a, c)
  {
    if a.Alphanumeric? {
      LessIrreflexive(a.s);
      if b.Alphanumeric? {
        LessTotal(a.s, b.s);
        if c.Alphanumeric? && Less(a.s, b.s) && Less(b.s, c.s) {
          LessTransitive(a.s, b.s, c.s);
        }
      }
    }
  }

  lemma {:induction false} ListOrder(a: seq<Identifier>, b: seq<Identifier>, c: seq<Identifier>)
    ensures !ListLess(a, a)
    ensures ListLess(a, b) || a == b || ListLess(b, a)
    ensures ListLess(a, b) && ListLess(b, c) ==> ListLess(a, c)
  {
    if a != [] {
      IdentifierOrder(a[0], a[0], a[0]);
      ListOrder(a[1..], a[1..], a[1..]);
      if b != [] {
        IdentifierOrder(a[0], b[0], if c == [] then b[0] else c[0]);
        ListOrder(a[1..], b[1..], if c == [] then b[1..] else c[1..]);
        assert a == [a[0]] + a[1..] && b == [b[0]] + b[1..];
      }
    }
  }

  lemma VersionOrder(a: Version, b: Version, c: Version)
    ensures !VersionLess(a, a)
    ensures VersionLess(a, b) || a == b || VersionLess(b, a)
    ensures VersionLess(a, b) && VersionLess(b, c) ==> VersionLess(a, c)
  {
    ListOrder(a.prerelease, b.prerelease, c.prerelease);
  }

  // ─── Versions are determined by their precedence ───

  lemma {:induction false} PartsDetermined(xs: seq<string>, ys: seq<string>)
    requires forall i :: 0 <= i < |xs| ==> ValidIdentifier(xs[i])
    requires forall i :: 0 <= i < |ys| ==> ValidIdentifier(ys[i])
    requires ToIdentifiers(xs) == ToIdentifiers(ys)
    ensures xs == ys
  {
    assert |xs| == |ToIdentifiers(xs)| == |ToIdentifiers(ys)| == |ys|;
    forall i | 0 <= i < |xs|
      ensures xs[i] == ys[i]
    {
      assert ToIdentifier(xs[i]) == ToIdentifiers(xs)[i] == ToIdentifiers(ys)[i] == ToIdentifier(ys[i]);
      if Digits(xs[i]) {
        CanonicalUnique(xs[i], ys[i]);
      }
    }
  }

  lemma CoreDetermined(v: string, w: string)
    requires Accepts(v) && Accepts(w)
    requires Parse(v).major == Parse(w).major && Parse(v).minor == Parse(w).minor && Parse(v).patch == Parse(w).patch
    ensures Core(v) == Core(w)
  {
    var a, b := Split(Core(v), '.'), Split(Core(w), '.');
    CanonicalUnique(a[0], b[0]);
    CanonicalUnique(a[1], b[1]);
    CanonicalUnique(a[2], b[2]);
    assert a == b;
    JoinSplit(Core(v), '.');
    JoinSplit(Core(w), '.');
  }

  lemma PrereleaseDetermined(p: string, q: string)
    requires forall i :: 0 <= i < |Split(p, '.')| ==> ValidIdentifier(Split(p, '.')[i])
    requires forall i :: 0 <= i < |Split(q, '.')| ==> ValidIdentifier(Split(q, '.')[i])
    requires ToIdentifiers(Split(p, '.')) == ToIdentifiers(Split(q, '.'))
    ensures p == q
  {
    PartsDetermined(Split(p, '.'), Split(q, '.'));
    JoinSplit(p, '.');
    JoinSplit(q, '.');
  }

  lemma ParseInjective(v: string, w: string)
    requires Accepts(v) && Accepts(w) && Parse(v) == Parse(w)
    ensures v == w
  {
    CoreDetermined(v, w);
    assert HasPrerelease(v) == HasPrerelease(w);
    if HasPrerelease(v) {
      PrereleaseDetermined(Prerelease(v), Prerelease(w));
    }
  }

  /**
   Precedence is a strict total order on accepted strings: neither of two precedes the other only if they are the
   same.
   */
  lemma PrecedenceIsTotalOrder(u: string, v: string, w: string)
    requires Accepts(u) && Accepts(v) && Accepts(w)
    ensures !Precedes(u, u)
    ensures Precedes(u, v) || u == v || Precedes(v, u)
    ensures !(Precedes(u, v) && Precedes(v, u))
    ensures Precedes(u, v) && Precedes(v, w) ==> Precedes(u, w)
  {
    VersionOrder(Parse(u), Parse(v), Parse(w));
    VersionOrder(Parse(u), Parse(v), Parse(u));
    if Parse(u) == Parse(v) {
      ParseInjective(u, v);
    }
  }

  /** Not being below is transitive, as a sort needs it. */
  lemma NotBelowIsTransitive(u: string, v: string, w: string)
    requires Accepts(u) && Accepts(v) && Accepts(w) && !Precedes(v, u) && !Precedes(w, v)
    ensures !Precedes(w, u)
  {
    VersionOrder(Parse(w), Parse(u), Parse(v));
    VersionOrder(Parse(v), Parse(w), Parse(u));
  }

  // ─── Every version has a string, and it is accepted ───

  function Written(id: Identifier): string {
    match id
    case Numeric(n) => Itoa(n)
    case Alphanumeric(s) => s
  }

  function Texts(ids: seq<Identifier>): (parts: seq<string>)
    ensures |parts| == |ids|
    ensures forall i :: 0 <= i < |ids| ==> parts[i] == Written(ids[i])
  {
    if ids == [] then [] else [Written(ids[0])] + Texts(ids[1..])
  }

  function Render(x: Version): string {
    var core := Join([Itoa(x.major), Itoa(x.minor), Itoa(x.patch)], '.');
    if x.prerelease == [] then core else core + ['-'] + Join(Texts(x.prerelease), '.')
  }

  /** An alphanumeric identifier has letters, digits and hyphens, and is not a number. */
  predicate WellFormed(x: Version) {
    forall i :: 0 <= i < |x.prerelease| ==> WellFormedIdentifier(x.prerelease[i])
  }

  predicate WellFormedIdentifier(id: Identifier) {
    id.Alphanumeric? ==>
      id.s != [] && !Digits(id.s) && forall i :: 0 <= i < |id.s| ==> PrereleaseChar(id.s[i]) && id.s[i] != '.'
  }

  lemma {:induction false} JoinChars(parts: seq<string>)
    requires forall i, k :: 0 <= i < |parts| && 0 <= k < |parts[i]| ==> PrereleaseChar(parts[i][k])
    ensures forall k :: 0 <= k < |Join(parts, '.')| ==> PrereleaseChar(Join(parts, '.')[k])
  {
    if |parts| == 1 {
      assert forall k :: 0 <= k < |parts[0]| ==> PrereleaseChar(parts[0][k]);
    } else if |parts| > 1 {
      JoinChars(parts[1..]);
      assert forall k :: 0 <= k < |parts[0]| ==> PrereleaseChar(parts[0][k]);
    }
  }

  lemma {:induction false} FirstHyphenAt(a: string, b: string)
    requires '-' !in a && (b == [] || b[0] == '-')
    ensures FirstHyphen(a + b) == |a|
  {
    if a == [] {
      assert a + b == b;
    } else {
      FirstHyphenAt(a[1..], b);
      assert (a + b)[1..] == a[1..] + b;
    }
  }

  lemma CoreParses(x: Version)
    ensures var core := Join([Itoa(x.major), Itoa(x.minor), Itoa(x.patch)], '.');
      && Split(core, '.') == [Itoa(x.major), Itoa(x.minor), Itoa(x.patch)]
      && '-' !in core && '+' !in core
  {
    var parts := [Itoa(x.major), Itoa(x.minor), Itoa(x.patch)];
    assert forall i :: 0 <= i < 3 ==> Digits(parts[i]);
    SplitJoin(parts, '.');
    var rest := parts[1..];
    assert rest[1..] == [parts[2]];
    assert Join(rest, '.') == parts[1] + ['.'] + parts[2];
    assert Join(parts, '.') == parts[0] + ['.'] + Join(rest, '.');
  }

  lemma PrereleaseParses(ids: seq<Identifier>)
    requires ids != [] && forall i :: 0 <= i < |ids| ==> WellFormedIdentifier(ids[i])
    ensures var pre := Join(Texts(ids), '.');
      && Split(pre, '.') == Texts(ids) && pre != []
      && forall k :: 0 <= k < |pre| ==> PrereleaseChar(pre[k])
    ensures ToIdentifiers(Texts(ids)) == ids
    ensures forall i :: 0 <= i < |ids| ==> ValidIdentifier(Texts(ids)[i])
  {
    var parts := Texts(ids);
    forall i | 0 <= i < |parts|
      ensures ToIdentifier(parts[i]) == ids[i] && ValidIdentifier(parts[i]) && '.' !in parts[i]
      ensures forall k :: 0 <= k < |parts[i]| ==> PrereleaseChar(parts[i][k])
    {
      assert parts[i] == Written(ids[i]);
    }
    SplitJoin(parts, '.');
    JoinChars(parts);
    assert parts[0] != [];
  }

  lemma AcceptsPrerelease(v: string, x: Version)
    requires HasPrerelease(v) && '+' !in Core(v) && Prerelease(v) != []
    requires Split(Core(v), '.') == [Itoa(x.major), Itoa(x.minor), Itoa(x.patch)]
    requires forall k :: 0 <= k < |Prerelease(v)| ==> PrereleaseChar(Prerelease(v)[k])
    requires forall i :: 0 <= i < |Split(Prerelease(v), '.')| ==> ValidIdentifier(Split(Prerelease(v), '.')[i])
    requires ToIdentifiers(Split(Prerelease(v), '.')) == x.prerelease
    ensures Accepts(v) && Parse(v) == x
  {
    forall i | 0 <= i < |v|
      ensures v[i] != '+'
    {
      var n := FirstHyphen(v);
      if i < n {
        assert v[i] == Core(v)[i];
      } else if i > n {
        assert v[i] == Prerelease(v)[i - n - 1];
      }
    }
    assert MatchesPattern(v);
    assert IsValid(v);
  }

  /** Rendering and parsing are inverse, so the accepted strings are exactly the well-formed versions written out. */
  lemma RenderParse(x: Version)
    requires WellFormed(x)
    ensures Accepts(Render(x)) && Parse(Render(x)) == x
  {
    var core := Join([Itoa(x.major), Itoa(x.minor), Itoa(x.patch)], '.');
    CoreParses(x);
    if x.prerelease == [] {
      FirstHyphenAt(core, []);
      assert core + [] == core && core[..|core|] == core;
    } else {
      var pre := Join(Texts(x.prerelease), '.');
      PrereleaseParses(x.prerelease);
      FirstHyphenAt(core, ['-'] + pre);
      assert core + (['-'] + pre) == Render(x);
      assert Core(Render(x)) == core && Prerelease(Render(x)) == pre;
      AcceptsPrerelease(Render(x), x);
    }
  }

  lemma ParseRender(v: string)
    requires Accepts(v)
    ensures WellFormed(Parse(v)) && Render(Parse(v)) == v
  {
    if HasPrerelease(v) {
      PartsWellFormed(Prerelease(v));
    }
    RenderParse(Parse(v));
    ParseInjective(Render(Parse(v)), v);
  }

  lemma PartsWellFormed(p: string)
    requires forall i :: 0 <= i < |p| ==> PrereleaseChar(p[i])
    requires forall i :: 0 <= i < |Split(p, '.')| ==> ValidIdentifier(Split(p, '.')[i])
    ensures forall i :: 0 <= i < |Split(p, '.')| ==> WellFormedIdentifier(ToIdentifier(Split(p, '.')[i]))
  {
    SplitChars(p);
  }

  lemma {:induction false} SplitChars(p: string)
    requires forall i :: 0 <= i < |p| ==> PrereleaseChar(p[i])
    ensures forall i, k :: 0 <= i < |Split(p, '.')| && 0 <= k < |Split(p, '.')[i]| ==>
      PrereleaseChar(Split(p, '.')[i][k]) && Split(p, '.')[i][k] != '.'
  {
    if p != [] {
      SplitChars(p[1..]);
    }
  }
}
