/**
 * The pieces of Rust's `format!` that the resolvers use to render numbers:
 * `{}` on an integer (decimal) and `{:08x}` (lower-case hexadecimal,
 * zero-padded to at least eight digits).
 */
module Format {

  const DIGIT_CHARS: string := "0123456789abcdef"

  /** True when every character of `s` is a digit of `radix` as `format!` writes it. */
  predicate AllDigits(s: string, radix: nat)
    requires 2 <= radix <= 16
  {
    forall i :: 0 <= i < |s| ==> s[i] in DIGIT_CHARS[..radix]
  }

  /** Euclidean division facts for one rendering step. */
  lemma DivModStep(n: nat, radix: nat)
    requires 2 <= radix <= 16 && n >= radix
    ensures n % radix < radix && 0 < n / radix < n && (n / radix) * radix + n % radix == n
  {
  }

  /** The digits of `n` in `radix`, most significant first, without leading zeros. */
  function Digits(n: nat, radix: nat): (s: string)
    requires 2 <= radix <= 16
    ensures 1 <= |s|
    ensures AllDigits(s, radix)
    decreases n
  {
    if n < radix then
      [DIGIT_CHARS[n]]
    else
      DivModStep(n, radix);
      Digits(n / radix, radix) + [DIGIT_CHARS[n % radix]]
  }

  /** `format!("{}", n)` for an unsigned integer. */
  function Decimal(n: nat): (s: string)
    ensures 1 <= |s| && AllDigits(s, 10)
  {
    Digits(n, 10)
  }

  /** `format!("{}", i)` for a signed integer: the digits of its magnitude, after a `-` when it is negative. */
  function Signed(i: int): (s: string)
    ensures 1 <= |s|
    ensures s[0] == '-' <==> i < 0
    ensures (if i < 0 then s[1..] else s) == Decimal(if i < 0 then -i else i)
  {
    var d := Decimal(if i < 0 then -i else i);
    assert d[0] in DIGIT_CHARS[..10];
    if i < 0 then "-" + d else d
  }

  /** `n` zeros. */
  function Zeros(n: nat): (s: string)
    ensures |s| == n
    ensures forall i :: 0 <= i < n ==> s[i] == '0'
  {
    seq(n, _ => '0')
  }

  /** `format!("{:08x}", n)`: lower-case hexadecimal, left-padded with zeros to eight digits. */
  function Hex08(n: nat): (s: string)
    ensures 8 <= |s|
    ensures AllDigits(s, 16)
    ensures |s| > 8 ==> s == Digits(n, 16)
  {
    var h := Digits(n, 16);
    if |h| >= 8 then h
    else
      var z := Zeros(8 - |h|);
      assert forall i :: 0 <= i < |z| ==> z[i] == DIGIT_CHARS[0];
      z + h
  }
}
