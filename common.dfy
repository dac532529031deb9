/** Values and number formatting shared by both servers and the client:
    optional values with JavaScript truthiness, Math.round on a quotient,
    and the decimal rendering `${n}` of a non-negative integer. */
module Common {

  datatype Option<+T> = None | Some(value: T)

  datatype Result<+T, +E> = Success(value: T) | Failure(error: E)

  /** JavaScript truthiness of an optional string: absent and "" are both falsy. */
  predicate Present(s: Option<string>) {
    s.Some? && s.value != ""
  }

  /** `s || fallback` for an optional string. */
  function OrElse(s: Option<string>, fallback: string): string {
    if Present(s) then s.value else fallback
  }

  /** JavaScript truthiness of an optional number: absent and 0 are both falsy. */
  predicate PresentNat(n: Option<nat>) {
    n.Some? && n.value > 0
  }

  /** Math.round(a / b) for b > 0: floor(a / b + 1/2), the nearest integer
      with halves rounded up; a negative numerator arises when a download
      runs past its announced total. */
  function RoundDiv(a: int, b: nat): (r: int)
    requires b > 0
    ensures 2 * r * b <= 2 * a + b < 2 * r * b + 2 * b
    ensures a >= 0 ==> r >= 0
  {
    var n, d := 2 * a + b, 2 * b;
    var q := n / d;
    assert q * d <= n < q * d + d;
    assert 2 * q * b == q * d;
    q
  }

  /** Rounding is monotone in the numerator. */
  lemma RoundDivMonotone(a1: nat, a2: nat, b: nat)
    requires b > 0 && a1 <= a2
    ensures RoundDiv(a1, b) <= RoundDiv(a2, b)
  {
    var r1, r2 := RoundDiv(a1, b), RoundDiv(a2, b);
    assert r1 * (2 * b) < (r2 + 1) * (2 * b);
    MulCancel(r1, r2 + 1, 2 * b);
  }

  lemma MulCancel(x: nat, y: nat, k: nat)
    requires k > 0 && x * k < y * k
    ensures x < y
  {
    if x >= y {
      MulMonotone(y, x, k);
    }
  }

  lemma MulMonotone(x: nat, y: nat, k: nat)
    requires x <= y
    ensures x * k <= y * k
  {
  }

  /** Euclidean division is determined by quotient and remainder. */
  lemma DivModUnique(n: int, d: nat, q: int, r: int)
    requires d > 0 && 0 <= r < d && n == q * d + r
    ensures n / d == q && n % d == r
  {
    var q', r' := n / d, n % d;
    assert (q - q') * d == r' - r;
    if q > q' {
      MulMonotone(1, q - q', d);
    } else if q < q' {
      MulMonotone(1, q' - q, d);
    }
  }

  /** Adding whole multiples of d shifts the quotient and keeps the remainder. */
  lemma DivModShift(a: nat, t: nat, d: nat)
    requires d > 0
    ensures (a * d + t) / d == a + t / d && (a * d + t) % d == t % d
  {
    assert a * d + t == (a + t / d) * d + t % d;
    DivModUnique(a * d + t, d, a + t / d, t % d);
  }

  predicate IsDigit(c: char) {
    '0' <= c <= '9'
  }

  predicate AllDigits(s: string) {
    forall i :: 0 <= i < |s| ==> IsDigit(s[i])
  }

  function DigitChar(d: nat): (c: char)
    requires d < 10
    ensures IsDigit(c) && c as int - '0' as int == d
  {
    ('0' as int + d) as char
  }

  /** The value of a string of decimal digits (leading zeros allowed), as parseInt reads it. */
  function DigitsValue(s: string): nat
    requires AllDigits(s)
  {
    if s == [] then 0
    else DigitsValue(s[..|s| - 1]) * 10 + (s[|s| - 1] as int - '0' as int)
  }

  /** `${n}`: the shortest decimal rendering of n. */
  function NatStr(n: nat): (s: string)
    ensures |s| >= 1 && AllDigits(s)
    ensures n > 0 ==> s[0] != '0'
    decreases n
  {
    if n < 10 then [DigitChar(n)] else NatStr(n / 10) + [DigitChar(n % 10)]
  }

  /** Reading the rendering of n back gives n. */
  lemma {:induction false} NatStrRoundTrip(n: nat)
    ensures DigitsValue(NatStr(n)) == n
  {
    if n >= 10 {
      var s := NatStr(n);
      assert s[..|s| - 1] == NatStr(n / 10);
      NatStrRoundTrip(n / 10);
    }
  }

  /** `${i}` for any integer i (Math.round never yields -0 in a string). */
  function IntStr(i: int): string {
    if i < 0 then "-" + NatStr(-i) else NatStr(i)
  }

  /** `${Math.round(bytes / 1024 / 1024)}MB`: a byte count in whole mebibytes. */
  function MegabyteText(bytes: nat): (r: string)
    ensures |r| >= 3 && AllDigits(r[..|r| - 2]) && r[|r| - 2..] == "MB"
    ensures DigitsValue(r[..|r| - 2]) == RoundDiv(bytes, 1048576)
  {
    var digits := NatStr(RoundDiv(bytes, 1048576));
    assert (digits + "MB")[..|digits|] == digits;
    NatStrRoundTrip(RoundDiv(bytes, 1048576));
    digits + "MB"
  }

  /** The sum of a sequence of chunk lengths. */
  function Sum(s: seq<nat>): nat {
    if s == [] then 0 else Sum(s[..|s| - 1]) + s[|s| - 1]
  }
}
