/**
 * What `string_to_u64` and `string_to_u128` make of the numbers `format!`
 * writes, and of the literal forms the trace annotations use.
 */
module UtilsRoundTrip {
  import opened Wrappers
  import opened Utils
  import Format

  /** The decimal rendering of a value below 2^64 parses back to it. */
  lemma DecimalRoundTrip(n: nat)
    requires n < U64_LIMIT
    ensures StringToU64(Format.Decimal(n)) == Ok(n)
  {
    var s := Format.Decimal(n);
    DetectPlainDigits(s, 10);
    DetectDecimal(s);
    FromStrRadixUnsigned(s, 10, U64_LIMIT);
    FoldDigitsRoundTrip(n, 10, U64_LIMIT);
  }

  /** The rendering of a signed value whose magnitude is below 2^64 reads back as its sign and magnitude. */
  lemma SignedRoundTrip(i: int)
    requires -(U64_LIMIT as int) < i < U64_LIMIT
    ensures var s := Format.Signed(i);
            (s[0] == '-' <==> i < 0)
            && StringToU64(if s[0] == '-' then s[1..] else s) == Ok(if i < 0 then -i else i)
  {
    DecimalRoundTrip(if i < 0 then -i else i);
  }

  /** `str::trim` on one blank either side of a word. */
  lemma TrimPadded(s: string, core: string)
    requires core != [] && !IsWhitespace(core[0]) && !IsWhitespace(core[|core| - 1])
    requires s == [' '] + core + [' ']
    ensures Trim(s) == core
  {
    assert s[1..] == core + [' '];
    assert TrimStart(s) == core + [' '];
    assert (core + [' '])[..|core|] == core;
  }

  /** The worked example `0x1F`. */
  lemma HexExampleUpper()
    ensures StringToU64("0x1F") == Ok(31)
  {
    DetectLiteral("0x1F", "0x", "1F");
    ParseDetected("0x1F", "1F", 16);
    FoldTwo("1F", 16, U64_LIMIT, 1, 15);
  }

  /** Parsing reads only the trimmed input: surrounding white space never changes the result. */
  lemma TrimInsensitive(s: string)
    ensures StringToU64(Trim(s)) == StringToU64(s)
    ensures StringToU128(Trim(s)) == StringToU128(s)
  {
    var t := Trim(s);
    if t != [] {
      TrimNoop(t);
    }
    assert Trim(t) == t;
  }

  /** One blank either side of a literal is ignored. */
  lemma BlanksIgnored(s: string)
    requires s != [] && !IsWhitespace(s[0]) && !IsWhitespace(s[|s| - 1])
    ensures StringToU64([' '] + s + [' ']) == StringToU64(s)
    ensures StringToU128([' '] + s + [' ']) == StringToU128(s)
  {
    var padded := [' '] + s + [' '];
    TrimPadded(padded, s);
    TrimNoop(s);
    TrimInsensitive(padded);
  }

  /** A sign after the prefix is accepted, because `from_str_radix` allows a leading `+`. */
  lemma HexExampleSign()
    ensures StringToU64("0x+1F") == Ok(31)
  {
    DetectLiteral("0x+1F", "0x", "+1F");
    assert StringToU64("0x+1F") == FromStrRadix("+1F", 16, U64_LIMIT);
    assert "+1F"[1..] == "1F";
    assert FromStrRadix("+1F", 16, U64_LIMIT) == FoldDigits("1F", 16, U64_LIMIT);
    FoldTwo("1F", 16, U64_LIMIT, 1, 15);
  }

  /** Malformed hexadecimal input: a non-digit and an empty digit string. */
  lemma HexExampleErrors()
    ensures StringToU64("0xZZ") == Err(InvalidDigit)
    ensures StringToU64("0x") == Err(Empty)
  {
    DetectLiteral("0xZZ", "0x", "ZZ");
    ParseDetected("0xZZ", "ZZ", 16);
    assert "ZZ"[..1] == "Z" && "Z"[..0] == [];
    DetectLiteral("0x", "0x", []);
  }

  /** The worked example `0b101`. */
  lemma BinaryExample()
    ensures StringToU64("0b101") == Ok(5)
  {
    DetectLiteral("0b101", "0b", "101");
    ParseDetected("0b101", "101", 2);
    assert "101" == "10" + ['1'];
    FoldTwo("10", 2, U64_LIMIT, 1, 0);
    assert FoldDigits("10", 2, U64_LIMIT) == Ok(2);
    FoldSnoc("10", '1', 2, U64_LIMIT);
    assert ToDigit('1', 2) == Some(1);
  }
}
