/**
 The precedence of section 11 of Semantic Versioning 2.0.0, read off the version strings, and the proof
 that it is the order the releases are compared by.
 */
module SemverLaws {
  import opened Text
  import opened Decimal
  import opened Semver

  // ─── Digits and bytes ───

  function Pow10(k: nat): nat { if k == 0 then 1 else 10 * Pow10(k - 1) }

  /**
   Decimal notation: a digit's value is its place among "0123456789", and prefixing digits adds multiples of
   powers of ten.
   */
  lemma {:induction false} DecimalNotation(a: string, b: string)
    requires Digits(a) && Digits(b)
    ensures Digits(a + b) && Value(a + b) == Value(a) * Pow10(|b|) + Value(b)
    decreases |b|
  {
    if b == [] {
      assert a + b == a;
    } else {
      var c := b[..|b| - 1];
      DecimalNotation(a, c);
      NextDigit(a + b, a + c);
      NextDigit(b, c);
      NextPower(Value(a), |c|, Value(c));
    }
  }

  lemma NextDigit(s: string, init: string)
    requires s != [] && init == s[..|s| - 1] && Digits(init) && '0' <= s[|s| - 1] <= '9'
    ensures Digits(s) && Value(s) == Value(init) * 10 + (s[|s| - 1] - '0') as nat
  {
  }

  lemma NextPower(x: nat, k: nat, z: nat)
    ensures (x * Pow10(k) + z) * 10 == x * Pow10(k + 1) + z * 10
  {
  }

  lemma DigitValues(d: nat)
    requires d < 10
    ensures Digits(["0123456789"[d]]) && Value(["0123456789"[d]]) == d
  {
    assert ["0123456789"[d]][..0] == [];
  }

  /** The two strings agree up to k, and there the first one ends or has the smaller byte. */
  predicate LowerAt(a: string, b: string, k: nat) {
    k <= |a| && k < |b| && a[..k] == b[..k] && (k < |a| ==> a[k] < b[k])
  }

  ghost predicate BytesLower(a: string, b: string) {
    exists k :: LowerAt(a, b, k)
  }

  lemma SamePrefix<T>(a: seq<T>, b: seq<T>, k: nat)
    ensures 0 < k <= |a| && k <= |b| && a[..k] == b[..k] ==> a[0] == b[0]
  {
    if 0 < k <= |a| && k <= |b| {
      assert a[..k][0] == a[0] && b[..k][0] == b[0];
    }
  }

  lemma {:induction false} LessIsBytesLower(a: string, b: string)
    ensures Less(a, b) <==> BytesLower(a, b)
  {
    if a != [] && b != [] && a[0] == b[0] {
      LessIsBytesLower(a[1..], b[1..]);
      if Less(a[1..], b[1..]) {
        var k: nat :| LowerAt(a[1..], b[1..], k);
        assert a[..k + 1] == [a[0]] + a[1..][..k] && b[..k + 1] == [b[0]] + b[1..][..k];
        assert LowerAt(a, b, k + 1);
      }
      if BytesLower(a, b) {
        var k: nat :| LowerAt(a, b, k);
        assert k > 0;
        assert a[1..][..k - 1] == a[..k][1..] && b[1..][..k - 1] == b[..k][1..];
        assert LowerAt(a[1..], b[1..], k - 1);
      }
    } else if Less(a, b) {
      assert LowerAt(a, b, 0);
    } else if BytesLower(a, b) {
      var k: nat :| LowerAt(a, b, k);
      SamePrefix(a, b, k);
    }
  }

  // ─── Section 11 ───

  /** Rules 11.4.1 to 11.4.3: numbers by value, others in byte order, and numbers below others. */
  ghost predicate IdentifierLower(a: string, b: string) {
    if Digits(a) && Digits(b) then Value(a) < Value(b)
    else if Digits(a) || Digits(b) then Digits(a)
    else BytesLower(a, b)
  }

  /** Rule 11.4: the first different identifier decides; rule 11.4.4: with none, the shorter list is lower. */
  ghost predicate ListLowerAt(a: seq<string>, b: seq<string>, k: nat) {
    k <= |a| && k < |b| && a[..k] == b[..k] && (k < |a| ==> IdentifierLower(a[k], b[k]))
  }

  ghost predicate ListLower(a: seq<string>, b: seq<string>) {
    exists k :: ListLowerAt(a, b, k)
  }

  /** Rule 11.2: major, minor and patch, numerically, in that order. */
  predicate NumbersLower(a: seq<string>, b: seq<string>)
    requires |a| == 3 && |b| == 3 && forall i :: 0 <= i < 3 ==> Digits(a[i]) && Digits(b[i])
  {
    || Value(a[0]) < Value(b[0])
    || (Value(a[0]) == Value(b[0]) && Value(a[1]) < Value(b[1]))
    || (Value(a[0]) == Value(b[0]) && Value(a[1]) == Value(b[1]) && Value(a[2]) < Value(b[2]))
  }

  /** The three numbers of an accepted string. */
  function Numbers(v: string): (parts: seq<string>)
    requires Accepts(v)
    ensures |parts| == 3 && forall i :: 0 <= i < 3 ==> Digits(parts[i])
  {
    Split(Core(v), '.')
  }

  /** The prerelease identifiers, none if there is no hyphen. */
  function Identifiers(v: string): seq<string> {
    if HasPrerelease(v) then Split(Prerelease(v), '.') else []
  }

  /** Section 11 as a whole; rule 11.3: with equal numbers, a version with a prerelease is below one without. */
  ghost predicate Section11(v: string, w: string)
    requires Accepts(v) && Accepts(w)
  {
    || NumbersLower(Numbers(v), Numbers(w))
    || (Numbers(v) == Numbers(w) && '-' in v && ('-' !in w || ListLower(Identifiers(v), Identifiers(w))))
  }

  lemma SameIdentifier(a: string, b: string)
    requires ValidIdentifier(a) && ValidIdentifier(b)
    ensures ToIdentifier(a) == ToIdentifier(b) <==> a == b
  {
    if Digits(a) && Digits(b) && Value(a) == Value(b) {
      CanonicalUnique(a, b);
    }
  }

  lemma IdentifierAgrees(a: string, b: string)
    ensures IdentifierLess(ToIdentifier(a), ToIdentifier(b)) <==> IdentifierLower(a, b)
  {
    LessIsBytesLower(a, b);
  }

  ghost predicate Valid(parts: seq<string>) {
    forall i :: 0 <= i < |parts| ==> ValidIdentifier(parts[i])
  }

  lemma {:induction false} ListAgrees(a: seq<string>, b: seq<string>)
    requires Valid(a) && Valid(b)
    ensures ListLess(ToIdentifiers(a), ToIdentifiers(b)) <==> ListLower(a, b)
    decreases |a|
  {
    if b == [] {
    } else if a == [] {
      assert ListLowerAt(a, b, 0);
    } else {
      SameIdentifier(a[0], b[0]);
      IdentifierAgrees(a[0], b[0]);
      if a[0] == b[0] {
        ListAgrees(a[1..], b[1..]);
        TailAgrees(a, b);
      } else {
        HeadDecides(a, b);
      }
    }
  }

  lemma HeadDecides(a: seq<string>, b: seq<string>)
    requires a != [] && b != [] && a[0] != b[0]
    ensures ListLower(a, b) <==> IdentifierLower(a[0], b[0])
  {
    if IdentifierLower(a[0], b[0]) {
      assert ListLowerAt(a, b, 0);
    }
    if k: nat :| ListLowerAt(a, b, k) {
      SamePrefix(a, b, k);
    }
  }

  lemma TailAgrees(a: seq<string>, b: seq<string>)
    requires a != [] && b != [] && a[0] == b[0]
    ensures ListLower(a, b) <==> ListLower(a[1..], b[1..])
  {
    if k: nat :| ListLowerAt(a, b, k) {
      assert k > 0;
      assert a[1..][..k - 1] == a[..k][1..] && b[1..][..k - 1] == b[..k][1..];
      assert ListLowerAt(a[1..], b[1..], k - 1);
    }
    if k: nat :| ListLowerAt(a[1..], b[1..], k) {
      assert a[..k + 1] == [a[0]] + a[1..][..k] && b[..k + 1] == [b[0]] + b[1..][..k];
      assert ListLowerAt(a, b, k + 1);
    }
  }

  lemma NumbersDetermined(v: string, w: string)
    requires Accepts(v) && Accepts(w)
    ensures Numbers(v) == Numbers(w) <==>
      Value(Numbers(v)[0]) == Value(Numbers(w)[0]) && Value(Numbers(v)[1]) == Value(Numbers(w)[1])
      && Value(Numbers(v)[2]) == Value(Numbers(w)[2])
  {
    var a, b := Numbers(v), Numbers(w);
    if Value(a[0]) == Value(b[0]) && Value(a[1]) == Value(b[1]) && Value(a[2]) == Value(b[2]) {
      CanonicalUnique(a[0], b[0]);
      CanonicalUnique(a[1], b[1]);
      CanonicalUnique(a[2], b[2]);
    }
  }

  lemma ParsedParts(v: string)
    requires Accepts(v)
    ensures Parse(v).major == Value(Numbers(v)[0]) && Parse(v).minor == Value(Numbers(v)[1])
    ensures Parse(v).patch == Value(Numbers(v)[2]) && Parse(v).prerelease == ToIdentifiers(Identifiers(v))
  {
  }

  /** The comparison of releases is the precedence of section 11, on every two accepted strings. */
  lemma PrecedesIsSection11(v: string, w: string)
    requires Accepts(v) && Accepts(w)
    ensures Precedes(v, w) <==> Section11(v, w)
  {
    ParsedParts(v);
    ParsedParts(w);
    NumbersDetermined(v, w);
    ListAgrees(Identifiers(v), Identifiers(w));
  }

  // ─── The rules, one by one, on the strings ───

  lemma CoreOf(v: string, p: string)
    requires '-' !in v
    ensures Core(v) == v && Core(v + "-" + p) == v && Prerelease(v + "-" + p) == p
  {
    FirstHyphenAt(v, []);
    assert v + [] == v;
    FirstHyphenAt(v, ['-'] + p);
    assert v + (['-'] + p) == v + "-" + p;
  }

  /** A release is above each of its own prereleases. */
  lemma ReleaseAbovePrerelease(v: string, p: string)
    requires '-' !in v && Accepts(v) && Accepts(v + "-" + p)
    ensures Precedes(v + "-" + p, v)
  {
    CoreOf(v, p);
    PrecedesIsSection11(v + "-" + p, v);
    assert (v + "-" + p)[|v|] == '-';
  }

  /** Whatever their prereleases, the numbers decide first: major, then minor, then patch. */
  lemma NumbersDecide(v: string, w: string)
    requires Accepts(v) && Accepts(w) && NumbersLower(Split(Core(v), '.'), Split(Core(w), '.'))
    ensures Precedes(v, w)
  {
    PrecedesIsSection11(v, w);
  }

  predicate Plainly(parts: seq<string>) {
    parts != [] && forall i :: 0 <= i < |parts| ==> '.' !in parts[i]
  }

  /** The version v with these prerelease identifiers. */
  function With(v: string, parts: seq<string>): string { v + "-" + Join(parts, '.') }

  lemma WithParts(v: string, parts: seq<string>)
    requires '-' !in v && Plainly(parts)
    ensures Core(With(v, parts)) == v && '-' in With(v, parts) && Identifiers(With(v, parts)) == parts
  {
    CoreOf(v, Join(parts, '.'));
    assert With(v, parts)[|v|] == '-';
    SplitJoin(parts, '.');
  }

  /** With equal numbers, the lists of identifiers decide. */
  lemma IdentifiersDecide(v: string, ps: seq<string>, qs: seq<string>)
    requires '-' !in v && Plainly(ps) && Plainly(qs) && Accepts(With(v, ps)) && Accepts(With(v, qs))
    requires ListLower(ps, qs)
    ensures Precedes(With(v, ps), With(v, qs))
  {
    WithParts(v, ps);
    WithParts(v, qs);
    PrecedesIsSection11(With(v, ps), With(v, qs));
  }

  /** More identifiers after the same ones make the version higher. */
  lemma MoreIdentifiersAreHigher(v: string, parts: seq<string>, more: seq<string>)
    requires '-' !in v && Plainly(parts) && Plainly(parts + more) && more != []
    requires Accepts(v + "-" + Join(parts, '.')) && Accepts(v + "-" + Join(parts + more, '.'))
    ensures Precedes(v + "-" + Join(parts, '.'), v + "-" + Join(parts + more, '.'))
  {
    assert ListLowerAt(parts, parts + more, |parts|);
    IdentifiersDecide(v, parts, parts + more);
  }

  /** The first different identifier decides: numbers by value and below others, others by their bytes. */
  lemma FirstIdentifierDecides(v: string, same: seq<string>, i: string, j: string, xs: seq<string>, ys: seq<string>)
    requires '-' !in v && IdentifierLower(i, j) && Plainly(same + [i] + xs) && Plainly(same + [j] + ys)
    requires Accepts(v + "-" + Join(same + [i] + xs, '.')) && Accepts(v + "-" + Join(same + [j] + ys, '.'))
    ensures Precedes(v + "-" + Join(same + [i] + xs, '.'), v + "-" + Join(same + [j] + ys, '.'))
  {
    var ps, qs := same + [i] + xs, same + [j] + ys;
    assert ps[..|same|] == same == qs[..|same|] && ps[|same|] == i && qs[|same|] == j;
    assert ListLowerAt(ps, qs, |same|);
    IdentifiersDecide(v, ps, qs);
  }

  // ─── What is accepted ───

  /** ASCII digits, letters, hyphen and dot, by their codes. */
  predicate Plain(c: char) {
    48 <= c as int <= 57 || 65 <= c as int <= 90 || 97 <= c as int <= 122 || c as int == 45 || c as int == 46
  }

  /**
   The verdicts, from the string alone: build metadata is told apart, and accepted strings have plain characters
   only.
   */
  lemma VerdictsAreExact(v: string)
    ensures ValidateVersion(v) == BuildMetadata <==> '+' in v
    ensures Accepts(v) ==> forall i :: 0 <= i < |v| ==> Plain(v[i])
  {
    if Accepts(v) {
      AcceptedChars(v);
    }
  }

  lemma PrereleaseChars(c: char)
    ensures PrereleaseChar(c) <==> Plain(c)
  {
  }

  lemma {:induction false} SplitBack(s: string, i: nat)
    requires i < |s| && forall k :: 0 <= k < |Split(s, '.')| ==> Digits(Split(s, '.')[k])
    ensures PrereleaseChar(s[i])
  {
    var rest := Split(s[1..], '.');
    if s[0] != '.' {
      assert Split(s, '.')[0][0] == s[0];
      forall k | 0 <= k < |rest|
        ensures Digits(rest[k])
      {
        if k == 0 {
          assert rest[0] == Split(s, '.')[0][1..];
        } else {
          assert rest[k] == Split(s, '.')[k];
        }
      }
    } else {
      assert forall k :: 0 <= k < |rest| ==> rest[k] == Split(s, '.')[k + 1];
    }
    if i > 0 {
      SplitBack(s[1..], i - 1);
    }
  }

  lemma AcceptedChars(v: string)
    requires Accepts(v)
    ensures forall i :: 0 <= i < |v| ==> Plain(v[i])
  {
    var n := FirstHyphen(v);
    forall i | 0 <= i < |v|
      ensures Plain(v[i])
    {
      if i < n {
        SplitBack(Core(v), i);
      } else if i > n {
        assert v[i] == Prerelease(v)[i - n - 1];
      }
      PrereleaseChars(v[i]);
    }
  }
}
