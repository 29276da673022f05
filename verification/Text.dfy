// Printing numbers and cutting strings at separators.
module Text {
  predicate IsDigit(c: char) { '0' <= c <= '9' }

  predicate AllDigits(s: string) { forall i :: 0 <= i < |s| ==> IsDigit(s[i]) }

  function Digit(n: nat): (c: char)
    requires n < 10
    ensures IsDigit(c)
  {
    '0' + n as char
  }

  function DigitValue(c: char): (n: nat)
    requires IsDigit(c)
    ensures n < 10 && Digit(n) == c
  {
    (c - '0') as nat
  }

  // Decimal digits without padding.
  function Dec(n: nat): (s: string)
    ensures AllDigits(s) && 1 <= |s|
  {
    if n < 10 then [Digit(n)] else Dec(n / 10) + [Digit(n % 10)]
  }

  // The number a digit string spells.
  function Value(s: string): nat
    requires AllDigits(s)
  {
    if s == [] then 0 else 10 * Value(s[..|s| - 1]) + DigitValue(s[|s| - 1])
  }

  lemma {:induction false} ValueOfDec(n: nat)
    ensures Value(Dec(n)) == n
  {
    if 10 <= n {
      ValueOfDec(n / 10);
      assert Dec(n)[..|Dec(n)| - 1] == Dec(n / 10);
    }
  }

  // No leading zero.
  lemma {:induction false} DecStarts(n: nat)
    ensures Dec(n)[0] == '0' <==> n == 0
  {
    if 10 <= n { DecStarts(n / 10); }
  }

  lemma DecInjective(m: nat, n: nat)
    requires Dec(m) == Dec(n)
    ensures m == n
  {
    ValueOfDec(m);
    ValueOfDec(n);
  }

  // Exactly `width` digits, zero-padded on the left.
  function Pad(width: nat, n: nat): (s: string)
    ensures |s| == width && AllDigits(s)
  {
    if width == 0 then "" else Pad(width - 1, n / 10) + [Digit(n % 10)]
  }

  function Pow10(k: nat): (p: nat)
    ensures 1 <= p
  {
    if k == 0 then 1 else 10 * Pow10(k - 1)
  }

  lemma {:induction false} ValueOfPad(width: nat, n: nat)
    requires n < Pow10(width)
    ensures Value(Pad(width, n)) == n
  {
    if 0 < width {
      ValueOfPad(width - 1, n / 10);
      assert Pad(width, n)[..width - 1] == Pad(width - 1, n / 10);
    }
  }

  lemma {:induction false} PadOfValue(s: string)
    requires AllDigits(s)
    ensures Value(s) < Pow10(|s|) && Pad(|s|, Value(s)) == s
  {
    if s != "" {
      PadOfValue(s[..|s| - 1]);
      assert s == s[..|s| - 1] + [s[|s| - 1]];
    }
  }

  // A separator that neither head contains cuts two equal strings at the same place.
  lemma CutUnique(a: string, x: string, b: string, y: string, separator: char)
    requires a + [separator] + x == b + [separator] + y
    requires separator !in a && separator !in b
    ensures a == b && x == y
  {
    var s, t := a + [separator] + x, b + [separator] + y;
    assert s[|a|] == separator && forall i :: 0 <= i < |a| ==> s[i] == a[i] != separator;
    assert t[|b|] == separator && forall i :: 0 <= i < |b| ==> t[i] == b[i] != separator;
    assert |a| == |b|;
    assert a == s[..|a|] && b == t[..|b|];
    assert x == s[|a| + 1..] && y == t[|b| + 1..];
  }

  lemma CancelPrefix(p: string, x: string, y: string)
    requires p + x == p + y
    ensures x == y
  {
    assert x == (p + x)[|p|..] && y == (p + y)[|p|..];
  }

  // ── String order ──

  // Dictionary order by character code; a proper prefix comes first.
  predicate Before(s: string, t: string) {
    if t == "" then false
    else if s == "" then true
    else s[0] < t[0] || (s[0] == t[0] && Before(s[1..], t[1..]))
  }

  lemma {:induction false} BeforeIrreflexive(s: string)
    ensures !Before(s, s)
  {
    if s != "" { BeforeIrreflexive(s[1..]); }
  }

  lemma {:induction false} BeforeTransitive(s: string, t: string, u: string)
    requires Before(s, t) && Before(t, u)
    ensures Before(s, u)
  {
    if s != "" && s[0] == t[0] == u[0] { BeforeTransitive(s[1..], t[1..], u[1..]); }
  }

  lemma {:induction false} BeforeTotal(s: string, t: string)
    ensures Before(s, t) || s == t || Before(t, s)
  {
    if s != "" && t != "" && s[0] == t[0] {
      BeforeTotal(s[1..], t[1..]);
      assert s == [s[0]] + s[1..] && t == [t[0]] + t[1..];
    }
  }

  // Fields of one width are compared from left to right.
  lemma {:induction false} BeforeFields(a: string, x: string, b: string, y: string)
    requires |a| == |b|
    ensures Before(a + x, b + y) <==> Before(a, b) || (a == b && Before(x, y))
  {
    if a == "" {
      assert a + x == x && b + y == y;
    } else {
      assert (a + x)[1..] == a[1..] + x && (b + y)[1..] == b[1..] + y;
      assert a == [a[0]] + a[1..] && b == [b[0]] + b[1..];
      BeforeFields(a[1..], x, b[1..], y);
    }
  }

  // Zero-padded numbers of one width are in string order exactly when they are in numeric order.
  lemma {:induction false} PadOrder(width: nat, m: nat, n: nat)
    requires m < Pow10(width) && n < Pow10(width)
    ensures Before(Pad(width, m), Pad(width, n)) <==> m < n
    ensures Pad(width, m) == Pad(width, n) <==> m == n
  {
    if 0 < width {
      PadOrder(width - 1, m / 10, n / 10);
      BeforeFields(Pad(width - 1, m / 10), [Digit(m % 10)], Pad(width - 1, n / 10), [Digit(n % 10)]);
      assert Before([Digit(m % 10)], [Digit(n % 10)]) <==> m % 10 < n % 10;
      ValueOfPad(width, m);
      ValueOfPad(width, n);
    }
  }
}
