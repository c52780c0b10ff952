/** Decimal digit strings and the numbers they denote. */
module Decimal {

  predicate Digits(s: string) {
    forall i :: 0 <= i < |s| ==> '0' <= s[i] <= '9'
  }

  function Value(s: string): nat
    requires Digits(s)
  {
    if s == [] then 0 else Value(s[..|s| - 1]) * 10 + (s[|s| - 1] - '0') as nat
  }

  /** A number without leading zeros. */
  predicate Canonical(s: string) {
    Digits(s) && s != [] && (s[0] == '0' ==> |s| == 1)
  }

  lemma {:induction false} CanonicalPositive(s: string)
    requires Canonical(s) && s[0] != '0'
    ensures Value(s) >= 1
  {
    if |s| > 1 {
      CanonicalPositive(s[..|s| - 1]);
    } else {
      assert s[..0] == [];
    }
  }

  /** Without leading zeros a number is written in one way only. */
  lemma {:induction false} CanonicalUnique(a: string, b: string)
    requires Canonical(a) && Canonical(b) && Value(a) == Value(b)
    ensures a == b
  {
    var x, y := a[..|a| - 1], b[..|b| - 1];
    assert a[|a| - 1] == b[|b| - 1];
    if |a| > 1 && |b| > 1 {
      CanonicalUnique(x, y);
    } else if |a| > 1 {
      CanonicalPositive(x);
    } else if |b| > 1 {
      CanonicalPositive(y);
    }
    assert a == x + [a[|a| - 1]] && b == y + [b[|b| - 1]];
  }

  function Itoa(n: nat): (s: string)
    ensures Canonical(s) && Value(s) == n
    ensures n > 0 ==> s[0] != '0'
  {
    var last := ['0' + (n % 10) as char];
    if n < 10 then
      assert last[..0] == [];
      last
    else
      var s := Itoa(n / 10) + last;
      assert s[..|s| - 1] == Itoa(n / 10);
      s
  }

  function Zeros(k: nat): (s: string)
    ensures |s| == k && Digits(s) && Value(s) == 0
  {
    if k == 0 then [] else
      var s := Zeros(k - 1) + ['0'];
      assert s[..|s| - 1] == Zeros(k - 1);
      s
  }

  lemma {:induction false} LeadingZeros(k: nat, s: string)
    requires Digits(s)
    ensures Digits(Zeros(k) + s) && Value(Zeros(k) + s) == Value(s)
  {
    if s == [] {
      assert Zeros(k) + s == Zeros(k);
    } else {
      LeadingZeros(k, s[..|s| - 1]);
      assert (Zeros(k) + s)[..k + |s| - 1] == Zeros(k) + s[..|s| - 1];
    }
  }

  /** The number in at least `width` digits. */
  function Pad(n: nat, width: nat): string {
    var s := Itoa(n);
    if |s| < width then Zeros(width - |s|) + s else s
  }

  lemma PadValue(n: nat, width: nat)
    ensures Digits(Pad(n, width)) && Value(Pad(n, width)) == n && |Pad(n, width)| >= width
  {
    var s := Itoa(n);
    if |s| < width {
      LeadingZeros(width - |s|, s);
      assert Pad(n, width) == Zeros(width - |s|) + s;
    } else {
      assert Pad(n, width) == s;
    }
  }

  lemma PadTwo(n: nat)
    requires n < 100
    ensures |Pad(n, 2)| == 2
  {
    if n >= 10 {
      assert |Itoa(n)| == |Itoa(n / 10)| + 1;
    }
  }
}
