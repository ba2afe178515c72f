/**
 * Radix-detecting integer parsing (`detect_radix`, `string_to_u64`,
 * `string_to_u128`), including the parts of Rust's standard library it relies
 * on: `str::trim` and `from_str_radix` for unsigned integers.
 */
module Utils {
  import opened Wrappers
  import Format

  const U64_LIMIT: nat := 0x1_0000_0000_0000_0000
  const U128_LIMIT: nat := 0x1_0000_0000_0000_0000_0000_0000_0000_0000

  /** Unicode's White_Space property, which `char::is_whitespace` and so `str::trim` use. */
  predicate IsWhitespace(c: char) {
    || ('\U{0009}' <= c <= '\U{000D}')
    || c == ' ' || c == '\U{0085}' || c == '\U{00A0}' || c == '\U{1680}'
    || ('\U{2000}' <= c <= '\U{200A}')
    || c == '\U{2028}' || c == '\U{2029}' || c == '\U{202F}' || c == '\U{205F}' || c == '\U{3000}'
  }

  function TrimStart(s: string): (r: string)
    ensures |r| <= |s| && r == s[|s| - |r|..]
    ensures r == [] || !IsWhitespace(r[0])
    ensures forall i :: 0 <= i < |s| - |r| ==> IsWhitespace(s[i])
  {
    if s != [] && IsWhitespace(s[0]) then TrimStart(s[1..]) else s
  }

  function TrimEnd(s: string): (r: string)
    ensures |r| <= |s| && r == s[..|r|]
    ensures r == [] || !IsWhitespace(r[|r| - 1])
    ensures forall i :: |r| <= i < |s| ==> IsWhitespace(s[i])
  {
    if s != [] && IsWhitespace(s[|s| - 1]) then TrimEnd(s[..|s| - 1]) else s
  }

  /** Every character of `s` is white space. */
  predicate AllWhitespace(s: string) {
    forall k :: 0 <= k < |s| ==> IsWhitespace(s[k])
  }

  /** `str::trim`: drops leading and trailing white space. */
  function Trim(s: string): (r: string)
    ensures r == [] || (!IsWhitespace(r[0]) && !IsWhitespace(r[|r| - 1]))
    ensures exists i, j :: 0 <= i <= j <= |s| && r == s[i..j] && AllWhitespace(s[..i]) && AllWhitespace(s[j..])
    ensures r == [] <==> AllWhitespace(s)
  {
    var t := TrimStart(s);
    var r := TrimEnd(t);
    TrimSlice(s, t, r);
    r
  }

  /**
   * Cutting white space off the front of `s` (giving `t`) and then off the back
   * (giving `r`) leaves a slice of `s` with only white space on either side.
   */
  lemma TrimSlice(s: string, t: string, r: string)
    requires |t| <= |s| && t == s[|s| - |t|..] && forall k :: 0 <= k < |s| - |t| ==> IsWhitespace(s[k])
    requires |r| <= |t| && r == t[..|r|] && forall k :: |r| <= k < |t| ==> IsWhitespace(t[k])
    requires r == [] || !IsWhitespace(r[0])
    ensures exists i, j :: 0 <= i <= j <= |s| && r == s[i..j] && AllWhitespace(s[..i]) && AllWhitespace(s[j..])
    ensures r == [] <==> AllWhitespace(s)
  {
    var i := |s| - |t|;
    var j := i + |r|;
    assert r == s[i..j];
    assert AllWhitespace(s[..i]) by {
      forall k | 0 <= k < i
        ensures IsWhitespace(s[..i][k])
      {
        assert s[..i][k] == s[k];
      }
    }
    assert AllWhitespace(s[j..]) by {
      forall k | 0 <= k < |s| - j
        ensures IsWhitespace(s[j..][k])
      {
        assert s[j..][k] == t[|r| + k];
      }
    }
    if r == [] {
      assert AllWhitespace(s) by {
        forall k | 0 <= k < |s|
          ensures IsWhitespace(s[k])
        {
          if k >= i {
            assert s[k] == t[k - i];
          }
        }
      }
    } else {
      assert s[i] == r[0];
    }
  }

  lemma TrimNoop(s: string)
    requires s != [] && !IsWhitespace(s[0]) && !IsWhitespace(s[|s| - 1])
    ensures Trim(s) == s
  {
  }

  /** Does `s` start with `p`? (`str::strip_prefix` succeeds.) */
  predicate HasPrefix(s: string, p: string) {
    |p| <= |s| && s[..|p|] == p
  }

  /** `detect_radix`: trims, then `0x`/`0X` selects 16, else `0b`/`0B` selects 2, else 10. */
  function DetectRadix(s: string): (r: (string, nat))
    ensures r.1 in {2, 10, 16}
    ensures var t := Trim(s);
      && (r.1 == 16 <==> HasPrefix(t, "0x") || HasPrefix(t, "0X"))
      && (r.1 == 2 <==> !(HasPrefix(t, "0x") || HasPrefix(t, "0X")) && (HasPrefix(t, "0b") || HasPrefix(t, "0B")))
      && (r.1 == 10 ==> r.0 == t)
      && (r.1 != 10 ==> r.0 == t[2..])
  {
    var t := Trim(s);
    if HasPrefix(t, "0x") || HasPrefix(t, "0X") then (t[2..], 16)
    else if HasPrefix(t, "0b") || HasPrefix(t, "0B") then (t[2..], 2)
    else (t, 10)
  }

  /** The error kinds `from_str_radix` reports for an unsigned type. */
  datatype IntErrorKind = Empty | InvalidDigit | PosOverflow

  /** `char::to_digit(radix)`: decimal digits, then letters of either case for radices above 10. */
  function ToDigit(c: char, radix: nat): (d: Option<nat>)
    requires 2 <= radix <= 36
    ensures d.Some? ==> d.value < radix
    ensures '0' <= c <= '9' ==>
              d == if c as int - '0' as int < radix then Some(c as int - '0' as int) else None
    ensures 'a' <= c <= 'z' ==>
              d == if c as int - 'a' as int + 10 < radix then Some(c as int - 'a' as int + 10) else None
    ensures 'A' <= c <= 'Z' ==>
              d == if c as int - 'A' as int + 10 < radix then Some(c as int - 'A' as int + 10) else None
    ensures !('0' <= c <= '9' || 'a' <= c <= 'z' || 'A' <= c <= 'Z') ==> d.None?
  {
    var v :=
      if '0' <= c <= '9' then c as int - '0' as int
      else if 'a' <= c <= 'z' then c as int - 'a' as int + 10
      else if 'A' <= c <= 'Z' then c as int - 'A' as int + 10
      else 36;
    if v < radix then Some(v) else None
  }

  /**
   * The digit loop of `from_str_radix`, left to right: an invalid digit is
   * reported before the overflow that the same digit would cause, and the
   * first failure wins. `limit` is one more than the type's maximum.
   */
  function FoldDigits(ds: string, radix: nat, limit: nat): (r: Result<nat, IntErrorKind>)
    requires 2 <= radix <= 36
    ensures r.Ok? ==> r.value < limit || (ds == [] && r.value == 0)
    ensures r.Err? ==> r.error != Empty
    decreases |ds|
  {
    if ds == [] then Ok(0)
    else
      match FoldDigits(ds[..|ds| - 1], radix, limit)
      case Err(e) => Err(e)
      case Ok(acc) =>
        match ToDigit(ds[|ds| - 1], radix)
        case None => Err(InvalidDigit)
        case Some(d) => if acc * radix + d >= limit then Err(PosOverflow) else Ok(acc * radix + d)
  }

  /** `from_str_radix` for an unsigned type whose values are below `limit`. */
  function FromStrRadix(src: string, radix: nat, limit: nat): (r: Result<nat, IntErrorKind>)
    requires 2 <= radix <= 36
    requires 0 < limit
    ensures r.Ok? ==> r.value < limit
    ensures r == Err(Empty) <==> src == []
  {
    if src == [] then Err(Empty)
    else if src == "+" || src == "-" then Err(InvalidDigit)
    else FoldDigits(if src[0] == '+' then src[1..] else src, radix, limit)
  }

  /** `string_to_u64`. */
  function StringToU64(s: string): (r: Result<nat, IntErrorKind>)
    ensures r.Ok? ==> r.value < U64_LIMIT
  {
    var (digits, radix) := DetectRadix(s);
    FromStrRadix(digits, radix, U64_LIMIT)
  }

  /** `string_to_u128`. */
  function StringToU128(s: string): (r: Result<nat, IntErrorKind>)
    ensures r.Ok? ==> r.value < U128_LIMIT
  {
    var (digits, radix) := DetectRadix(s);
    FromStrRadix(digits, radix, U128_LIMIT)
  }

  // ---- Properties ---------------------------------------------------------

  /** A successful fold under a smaller limit succeeds with the same value under a larger one. */
  lemma {:induction false} FoldWidens(ds: string, radix: nat, small: nat, large: nat)
    requires 2 <= radix <= 36 && small <= large
    requires FoldDigits(ds, radix, small).Ok?
    ensures FoldDigits(ds, radix, large) == FoldDigits(ds, radix, small)
    decreases |ds|
  {
    if ds != [] {
      FoldWidens(ds[..|ds| - 1], radix, small, large);
    }
  }

  /** A successful fold under a larger limit whose value fits a smaller limit also succeeds under it. */
  lemma {:induction false} FoldNarrows(ds: string, radix: nat, small: nat, large: nat)
    requires 2 <= radix <= 36 && small <= large
    requires FoldDigits(ds, radix, large).Ok? && FoldDigits(ds, radix, large).value < small
    ensures FoldDigits(ds, radix, small) == FoldDigits(ds, radix, large)
    decreases |ds|
  {
    if ds != [] {
      var pre := ds[..|ds| - 1];
      var acc := FoldDigits(pre, radix, large).value;
      MulGrows(acc, radix);
      FoldNarrows(pre, radix, small, large);
    }
  }

  lemma MulGrows(a: nat, k: nat)
    requires 1 <= k
    ensures a <= a * k
  {
    assert a * k == a * (k - 1) + a;
  }

  /** `string_to_u64` and `string_to_u128` agree on every input whose value is below 2^64. */
  lemma U64AgreesWithU128(s: string)
    ensures StringToU64(s).Ok? ==> StringToU128(s) == StringToU64(s)
    ensures StringToU128(s).Ok? && StringToU128(s).value < U64_LIMIT ==> StringToU64(s) == StringToU128(s)
  {
    var (digits, radix) := DetectRadix(s);
    if digits != [] && digits != "+" && digits != "-" {
      var ds := if digits[0] == '+' then digits[1..] else digits;
      if FoldDigits(ds, radix, U64_LIMIT).Ok? {
        FoldWidens(ds, radix, U64_LIMIT, U128_LIMIT);
      }
      if FoldDigits(ds, radix, U128_LIMIT).Ok? && FoldDigits(ds, radix, U128_LIMIT).value < U64_LIMIT {
        FoldNarrows(ds, radix, U64_LIMIT, U128_LIMIT);
      }
    }
  }

  /** `to_digit` reads back the digit characters `format!` writes. */
  lemma ToDigitOfDigitChar(d: nat, radix: nat)
    requires d < radix && 2 <= radix <= 16
    ensures ToDigit(Format.DIGIT_CHARS[d], radix) == Some(d)
  {
  }

  /** Leading zeros do not change the value of a digit string. */
  lemma {:induction false} FoldLeadingZeros(k: nat, ds: string, radix: nat, limit: nat)
    requires 2 <= radix <= 36 && 0 < limit
    ensures FoldDigits(Format.Zeros(k) + ds, radix, limit) == FoldDigits(ds, radix, limit)
    decreases |ds|
  {
    var z := Format.Zeros(k);
    if ds == [] {
      assert z + ds == z;
      FoldZeros(k, radix, limit);
    } else {
      var pre, c := ds[..|ds| - 1], ds[|ds| - 1];
      assert ds == pre + [c] && z + ds == (z + pre) + [c];
      FoldLeadingZeros(k, pre, radix, limit);
      FoldSnoc(z + pre, c, radix, limit);
      FoldSnoc(pre, c, radix, limit);
    }
  }

  lemma {:induction false} FoldZeros(k: nat, radix: nat, limit: nat)
    requires 2 <= radix <= 36 && 0 < limit
    ensures FoldDigits(Format.Zeros(k), radix, limit) == Ok(0)
  {
    if k > 0 {
      assert Format.Zeros(k)[..k - 1] == Format.Zeros(k - 1);
      FoldZeros(k - 1, radix, limit);
    }
  }

  /**
   * Reading back the digits `format!` writes for `n` gives `n` when it fits
   * below `limit`, and an overflow error when it does not.
   */
  lemma {:induction false} FoldDigitsRoundTrip(n: nat, radix: nat, limit: nat)
    requires 2 <= radix <= 16 && 0 < limit
    ensures FoldDigits(Format.Digits(n, radix), radix, limit) == if n < limit then Ok(n) else Err(PosOverflow)
    decreases n
  {
    var s := Format.Digits(n, radix);
    if n < radix {
      assert s == [] + [Format.DIGIT_CHARS[n]];
      ToDigitOfDigitChar(n, radix);
      FoldDigitsStep([], Format.DIGIT_CHARS[n], 0, n, n, radix, limit);
    } else {
      Format.DivModStep(n, radix);
      var q, r := n / radix, n % radix;
      var pre := Format.Digits(q, radix);
      assert s == pre + [Format.DIGIT_CHARS[r]];
      FoldDigitsRoundTrip(q, radix, limit);
      ToDigitOfDigitChar(r, radix);
      FoldDigitsStep(pre, Format.DIGIT_CHARS[r], q, r, n, radix, limit);
    }
  }

  /** Appending the digit `r` to digits worth `q` gives digits worth `q * radix + r`, or an overflow. */
  lemma FoldDigitsStep(pre: string, c: char, q: nat, r: nat, n: nat, radix: nat, limit: nat)
    requires 2 <= radix <= 36
    requires FoldDigits(pre, radix, limit) == if q < limit then Ok(q) else Err(PosOverflow)
    requires ToDigit(c, radix) == Some(r)
    requires q * radix + r == n && q <= n
    ensures FoldDigits(pre + [c], radix, limit) == if n < limit then Ok(n) else Err(PosOverflow)
  {
    FoldSnoc(pre, c, radix, limit);
  }

  /** One step of the digit loop: the fold of a string extended by one character. */
  lemma FoldSnoc(pre: string, c: char, radix: nat, limit: nat)
    requires 2 <= radix <= 36
    ensures FoldDigits(pre + [c], radix, limit) ==
      match FoldDigits(pre, radix, limit)
      case Err(e) => Err(e)
      case Ok(acc) =>
        match ToDigit(c, radix)
        case None => Err(InvalidDigit)
        case Some(d) => if acc * radix + d >= limit then Err(PosOverflow) else Ok(acc * radix + d)
  {
    assert (pre + [c])[..|pre|] == pre;
  }

  /**
   * The digit loop reports an invalid digit exactly when some character is not
   * a digit of the radix and the characters before it were read without overflow.
   */
  lemma {:induction false} FoldInvalidDigit(ds: string, radix: nat, limit: nat)
    requires 2 <= radix <= 36
    ensures FoldDigits(ds, radix, limit) == Err(InvalidDigit) <==>
            exists k :: 0 <= k < |ds| && ToDigit(ds[k], radix).None? && FoldDigits(ds[..k], radix, limit).Ok?
    decreases |ds|
  {
    if ds != [] {
      var pre, c := ds[..|ds| - 1], ds[|ds| - 1];
      assert ds == pre + [c] && ds[..|pre|] == pre;
      FoldSnoc(pre, c, radix, limit);
      FoldInvalidDigit(pre, radix, limit);
      assert forall k :: 0 <= k < |pre| ==> ds[..k] == pre[..k] && ds[k] == pre[k];
    }
  }

  /** `from_str_radix` reports an invalid digit exactly when the digit loop over the unsigned text finds one. */
  lemma FromStrRadixInvalidDigit(src: string, radix: nat, limit: nat)
    requires 2 <= radix <= 36 && 0 < limit
    ensures var ds := if src != [] && src[0] == '+' && src != "+" then src[1..] else src;
            FromStrRadix(src, radix, limit) == Err(InvalidDigit) <==>
            exists k :: 0 <= k < |ds| && ToDigit(ds[k], radix).None? && FoldDigits(ds[..k], radix, limit).Ok?
  {
    var ds := if src != [] && src[0] == '+' && src != "+" then src[1..] else src;
    if src == "+" || src == "-" {
      assert ToDigit(ds[0], radix).None? && ds[..0] == [];
    } else {
      FoldInvalidDigit(ds, radix, limit);
    }
  }

  /** A digit as `format!` writes it is no sign and no white space; a decimal digit is no radix letter either. */
  lemma DigitIsPlain(c: char, radix: nat)
    requires radix == 10 || radix == 16
    requires c in Format.DIGIT_CHARS[..radix]
    ensures c != '+' && c != '-' && !IsWhitespace(c)
    ensures radix == 10 ==> c != 'x' && c != 'X' && c != 'b' && c != 'B'
  {
    assert Format.DIGIT_CHARS[..radix] == if radix == 10 then "0123456789" else "0123456789abcdef";
  }

  /** `detect_radix` on a digit string with no prefix of its own. */
  lemma DetectPlainDigits(s: string, radix: nat)
    requires radix == 10 || radix == 16
    requires s != [] && Format.AllDigits(s, radix)
    ensures s[0] != '+' && s[0] != '-'
    ensures !IsWhitespace(s[0]) && !IsWhitespace(s[|s| - 1])
  {
    DigitIsPlain(s[0], radix);
    DigitIsPlain(s[|s| - 1], radix);
  }

  /** A decimal digit string is read as it stands, in radix 10. */
  lemma DetectDecimal(s: string)
    requires s != [] && Format.AllDigits(s, 10)
    ensures DetectRadix(s) == (s, 10)
  {
    DetectPlainDigits(s, 10);
    TrimNoop(s);
    if |s| >= 2 {
      DigitIsPlain(s[1], 10);
      assert s[..2][1] == s[1];
    }
    assert !(HasPrefix(s, "0x") || HasPrefix(s, "0X") || HasPrefix(s, "0b") || HasPrefix(s, "0B"));
  }

  /** A trimmed input that starts with a radix prefix selects that radix on the rest. */
  lemma DetectPrefixed(s: string, p: string, h: string)
    requires p == "0x" || p == "0X" || p == "0b" || p == "0B"
    requires Trim(s) == p + h
    ensures DetectRadix(s) == (h, if p[1] == 'x' || p[1] == 'X' then 16 else 2)
  {
    var t := Trim(s);
    assert t[..2] == p && t[2..] == h;
  }

  /** An untrimmed literal `p + h` with a radix prefix `p` selects that radix on `h`. */
  lemma DetectLiteral(s: string, p: string, h: string)
    requires p == "0x" || p == "0X" || p == "0b" || p == "0B"
    requires s == p + h && (h == [] || !IsWhitespace(h[|h| - 1]))
    ensures DetectRadix(s) == (h, if p[1] == 'x' || p[1] == 'X' then 16 else 2)
  {
    assert s[0] == '0' && s[|s| - 1] == if h == [] then p[1] else h[|h| - 1];
    TrimNoop(s);
    DetectPrefixed(s, p, h);
  }

  /** A trimmed input without a radix prefix is read as decimal. */
  lemma DetectUnprefixed(s: string)
    requires s != [] && !IsWhitespace(s[0]) && !IsWhitespace(s[|s| - 1])
    requires s[0] != '0'
    ensures DetectRadix(s) == (s, 10)
  {
    TrimNoop(s);
  }

  /** Once the radix is detected and the digits carry no sign, both parsers are the plain digit fold. */
  lemma ParseDetected(s: string, digits: string, radix: nat)
    requires DetectRadix(s) == (digits, radix)
    requires digits != [] && digits[0] != '+' && digits[0] != '-'
    ensures StringToU64(s) == FoldDigits(digits, radix, U64_LIMIT)
    ensures StringToU128(s) == FoldDigits(digits, radix, U128_LIMIT)
  {
    FromStrRadixUnsigned(digits, radix, U64_LIMIT);
    FromStrRadixUnsigned(digits, radix, U128_LIMIT);
  }

  /** `0x` followed by a hexadecimal digit string selects radix 16 on exactly those digits. */
  lemma DetectHex(h: string)
    requires h != [] && Format.AllDigits(h, 16)
    ensures DetectRadix("0x" + h) == (h, 16)
    ensures StringToU64("0x" + h) == FromStrRadix(h, 16, U64_LIMIT)
    ensures StringToU128("0x" + h) == FromStrRadix(h, 16, U128_LIMIT)
  {
    DetectPlainDigits(h, 16);
    DetectLiteral("0x" + h, "0x", h);
  }

  /** `0x` followed by the `{:08x}` rendering of a value below 2^128 parses back to it as u128. */
  lemma HexRoundTrip(n: nat)
    requires n < U128_LIMIT
    ensures StringToU128("0x" + Format.Hex08(n)) == Ok(n)
  {
    DetectHex(Format.Hex08(n));
    HexParses(n, U128_LIMIT);
  }

  /** `0x` followed by the `{:08x}` rendering of a value below 2^64 parses back to it as u64. */
  lemma HexRoundTripU64(n: nat)
    requires n < U64_LIMIT
    ensures StringToU64("0x" + Format.Hex08(n)) == Ok(n)
  {
    DetectHex(Format.Hex08(n));
    HexParses(n, U64_LIMIT);
  }

  /** `from_str_radix` on a non-empty string that does not start with a sign is the plain digit fold. */
  lemma FromStrRadixUnsigned(s: string, radix: nat, limit: nat)
    requires 2 <= radix <= 36 && 0 < limit
    requires s != [] && s[0] != '+' && s[0] != '-'
    ensures FromStrRadix(s, radix, limit) == FoldDigits(s, radix, limit)
  {
    assert s != "+" && s != "-";
  }

  /** The fold over the `{:08x}` digits of `n` under any limit. */
  lemma HexParses(n: nat, limit: nat)
    requires 0 < limit
    ensures FromStrRadix(Format.Hex08(n), 16, limit) == if n < limit then Ok(n) else Err(PosOverflow)
  {
    var h := Format.Hex08(n);
    var d := Format.Digits(n, 16);
    DetectPlainDigits(h, 16);
    FromStrRadixUnsigned(h, 16, limit);
    if |d| < 8 {
      assert h == Format.Zeros(8 - |d|) + d;
      FoldLeadingZeros(8 - |d|, d, 16, limit);
    } else {
      assert h == d;
    }
    FoldDigitsRoundTrip(n, 16, limit);
  }

  /** A hexadecimal literal that fits 128 bits but not 64 parses as u128 and overflows as u64. */
  lemma HexOverflowsU64(n: nat)
    requires U64_LIMIT <= n < U128_LIMIT
    ensures StringToU64("0x" + Format.Hex08(n)) == Err(PosOverflow)
    ensures StringToU128("0x" + Format.Hex08(n)) == Ok(n)
  {
    DetectHex(Format.Hex08(n));
    HexParses(n, U128_LIMIT);
    HexParses(n, U64_LIMIT);
  }

  /** A two-digit fold, spelled out. */
  lemma FoldTwo(ds: string, radix: nat, limit: nat, hi: nat, lo: nat)
    requires 2 <= radix <= 36 && |ds| == 2
    requires ToDigit(ds[0], radix) == Some(hi) && ToDigit(ds[1], radix) == Some(lo)
    requires hi * radix + lo < limit
    ensures FoldDigits(ds, radix, limit) == Ok(hi * radix + lo)
  {
    var first := [ds[0]];
    assert first == [] + [ds[0]] && ds == first + [ds[1]];
    FoldSnoc([], ds[0], radix, limit);
    assert 0 * radix + hi == hi;
    MulGrows(hi, radix);
    assert FoldDigits(first, radix, limit) == Ok(hi);
    FoldSnoc(first, ds[1], radix, limit);
  }
}
