/** Base36 codec over the digits 0-9A-Z, as fixed by the table-driven tests of
    the base36 package: Encode writes upper-case digits, most significant
    first, with no leading zeros (so 0 encodes as the empty string), and Decode
    reads upper- or lower-case digits. */
module Base36 {
  import opened Wrappers

  /** The characters Encode writes: 0-9 and A-Z. */
  predicate IsUpperDigit(c: char)
  {
    '0' <= c <= '9' || 'A' <= c <= 'Z'
  }

  /** The upper-case digit for a value below 36. */
  function Digit(d: nat): (c: char)
    requires d < 36
    ensures IsUpperDigit(c)
    ensures c == '0' <==> d == 0
  {
    if d < 10 then ('0' as int + d) as char else ('A' as int + d - 10) as char
  }

  /** The value of one digit, upper or lower case; None for any other character. */
  function DigitValue(c: char): (r: Option<nat>)
    ensures r.Some? ==> r.value < 36
    ensures r.Some? <==> ('0' <= c <= '9' || 'A' <= c <= 'Z' || 'a' <= c <= 'z')
  {
    if '0' <= c <= '9' then Some(c as int - '0' as int)
    else if 'A' <= c <= 'Z' then Some(c as int - 'A' as int + 10)
    else if 'a' <= c <= 'z' then Some(c as int - 'a' as int + 10)
    else None
  }

  function Encode(n: nat): (s: string)
    decreases n
  {
    if n == 0 then "" else Encode(n / 36) + [Digit(n % 36)]
  }

  function Decode(s: string): (r: Option<nat>)
    decreases |s|
  {
    if s == [] then Some(0)
    else
      match (Decode(s[..|s| - 1]), DigitValue(s[|s| - 1]))
      case (Some(high), Some(low)) => Some(high * 36 + low)
      case _ => None
  }

  /** ASCII lower-casing, as strings.ToLower does on this alphabet. */
  function ToLower(s: string): (t: string)
    ensures |t| == |s|
    ensures forall i :: 0 <= i < |s| ==> t[i] == LowerChar(s[i])
  {
    seq(|s|, i requires 0 <= i < |s| => LowerChar(s[i]))
  }

  function LowerChar(c: char): char
  {
    if 'A' <= c <= 'Z' then (c as int - 'A' as int + 'a' as int) as char else c
  }

  /** A canonical encoding: upper-case digits only and no leading zero. */
  predicate Canonical(s: string)
  {
    (forall i :: 0 <= i < |s| ==> IsUpperDigit(s[i])) && (s == [] || s[0] != '0')
  }

  lemma {:induction false} EncodeCanonical(n: nat)
    ensures Canonical(Encode(n))
    ensures n == 0 <==> Encode(n) == ""
    decreases n
  {
    if n != 0 {
      EncodeCanonical(n / 36);
      var s := Encode(n / 36);
      assert Encode(n) == s + [Digit(n % 36)];
      if s == [] {
        assert n / 36 == 0;
        assert n % 36 == n;
        assert Digit(n) != '0';
      }
    }
  }

  lemma {:induction false} DecodeEncode(n: nat)
    ensures Decode(Encode(n)) == Some(n)
    decreases n
  {
    if n != 0 {
      DecodeEncode(n / 36);
      var s := Encode(n);
      assert s[..|s| - 1] == Encode(n / 36);
      DigitRoundTrip(n % 36);
    }
  }

  lemma DigitRoundTrip(d: nat)
    requires d < 36
    ensures DigitValue(Digit(d)) == Some(d)
    ensures DigitValue(LowerChar(Digit(d))) == Some(d)
  {
  }

  /** Decoding ignores case: the lower-cased encoding decodes to the same number. */
  lemma {:induction false} DecodeLowerEncode(n: nat)
    ensures Decode(ToLower(Encode(n))) == Some(n)
    decreases n
  {
    if n != 0 {
      DecodeLowerEncode(n / 36);
      var s := Encode(n);
      var t := ToLower(s);
      assert s == Encode(n / 36) + [Digit(n % 36)];
      assert t[..|t| - 1] == ToLower(Encode(n / 36));
      DigitRoundTrip(n % 36);
    }
  }

  /** Encoding inverts decoding on canonical strings. */
  lemma {:induction false} EncodeDecode(s: string)
    requires Canonical(s)
    ensures Decode(s).Some? && Encode(Decode(s).value) == s
    decreases |s|
  {
    if s != [] {
      var init := s[..|s| - 1];
      assert Canonical(init) by {
        assert forall i :: 0 <= i < |init| ==> init[i] == s[i];
      }
      EncodeDecode(init);
      var high := Decode(init).value;
      var low := DigitValue(s[|s| - 1]).value;
      AlphabetDigit(s[|s| - 1]);
      var n := high * 36 + low;
      assert n / 36 == high && n % 36 == low;
      if init == [] {
        assert high == 0;
        assert s[0] != '0';
        assert low != 0;
      }
      assert n != 0;
      assert Encode(n) == Encode(high) + [Digit(low)];
      assert s == init + [s[|s| - 1]];
    }
  }

  lemma AlphabetDigit(c: char)
    requires IsUpperDigit(c)
    ensures DigitValue(c).Some? && Digit(DigitValue(c).value) == c
    ensures c == '0' <==> DigitValue(c).value == 0
  {
  }

  /** n encodes as the first k characters of s, checked digit by digit from the
      least significant end: a form the verifier evaluates on literals. */
  predicate EncodesPrefix(n: nat, s: string, k: nat)
    requires k <= |s|
  {
    if k == 0 then n == 0 else n > 0 && s[k - 1] == Digit(n % 36) && EncodesPrefix(n / 36, s, k - 1)
  }

  lemma {:induction false} EncodesPrefixSound(n: nat, s: string, k: nat)
    requires k <= |s| && EncodesPrefix(n, s, k)
    ensures Encode(n) == s[..k]
  {
    if k > 0 {
      EncodesPrefixSound(n / 36, s, k - 1);
      assert s[..k] == s[..k - 1] + [s[k - 1]];
    }
  }

  const MaxInt64: nat := 0x7FFF_FFFF_FFFF_FFFF
  const MaxUint64: nat := 0xFFFF_FFFF_FFFF_FFFF
  /** The tabulated value the package's encode benchmark also uses. */
  const BenchmarkValue: nat := 5481594952936519619

  /** The tabulated values below 1000. */
  lemma EncodeVectorsBelow1000()
    ensures Encode(0) == ""
    ensures Encode(50) == "1E"
    ensures Encode(100) == "2S"
    ensures Encode(999) == "RR"
  {
    EncodesPrefixSound(0, "", 0);
    assert EncodesPrefix(1, "1E", 1);
    assert EncodesPrefix(50, "1E", 2);
    EncodesPrefixSound(50, "1E", 2);
    assert EncodesPrefix(2, "2S", 1);
    assert EncodesPrefix(100, "2S", 2);
    EncodesPrefixSound(100, "2S", 2);
    assert EncodesPrefix(27, "RR", 1);
    assert EncodesPrefix(999, "RR", 2);
    EncodesPrefixSound(999, "RR", 2);
  }

  /** The tabulated values from 1000 to 9999. */
  lemma EncodeVectorsBelow10000()
    ensures Encode(1000) == "RS"
    ensures Encode(1111) == "UV"
    ensures Encode(5959) == "4LJ"
  {
    assert EncodesPrefix(27, "RS", 1);
    assert EncodesPrefix(1000, "RS", 2);
    EncodesPrefixSound(1000, "RS", 2);
    assert EncodesPrefix(30, "UV", 1);
    assert EncodesPrefix(1111, "UV", 2);
    EncodesPrefixSound(1111, "UV", 2);
    assert EncodesPrefix(4, "4LJ", 1);
    assert EncodesPrefix(165, "4LJ", 2);
    assert EncodesPrefix(5959, "4LJ", 3);
    EncodesPrefixSound(5959, "4LJ", 3);
  }

  /** The tabulated 99999. */
  lemma EncodeVector99999()
    ensures Encode(99999) == "255R"
  {
    assert EncodesPrefix(2, "255R", 1);
    assert EncodesPrefix(77, "255R", 2);
    assert EncodesPrefix(2777, "255R", 3);
    assert EncodesPrefix(99999, "255R", 4);
    EncodesPrefixSound(99999, "255R", 4);
  }

  /** The tabulated 123456789. */
  lemma EncodeVector123456789()
    ensures Encode(123456789) == "21I3V9"
  {
    assert EncodesPrefix(2, "21I3V9", 1);
    assert EncodesPrefix(73, "21I3V9", 2);
    assert EncodesPrefix(2646, "21I3V9", 3);
    assert EncodesPrefix(95259, "21I3V9", 4);
    assert EncodesPrefix(3429355, "21I3V9", 5);
    assert EncodesPrefix(123456789, "21I3V9", 6);
    EncodesPrefixSound(123456789, "21I3V9", 6);
  }

  /** The tabulated 5481594952936519619. */
  lemma EncodeVectorBenchmarkValue()
    ensures Encode(BenchmarkValue) == "15N9Z8L3AU4EB"
  {
    assert BenchmarkValue == 5481594952936519619;
    assert EncodesPrefix(1, "15N9Z8L3AU4EB", 1);
    assert EncodesPrefix(41, "15N9Z8L3AU4EB", 2);
    assert EncodesPrefix(1499, "15N9Z8L3AU4EB", 3);
    assert EncodesPrefix(53973, "15N9Z8L3AU4EB", 4);
    assert EncodesPrefix(1943063, "15N9Z8L3AU4EB", 5);
    assert EncodesPrefix(69950276, "15N9Z8L3AU4EB", 6);
    assert EncodesPrefix(2518209957, "15N9Z8L3AU4EB", 7);
    assert EncodesPrefix(90655558455, "15N9Z8L3AU4EB", 8);
    assert EncodesPrefix(3263600104390, "15N9Z8L3AU4EB", 9);
    assert EncodesPrefix(117489603758070, "15N9Z8L3AU4EB", 10);
    assert EncodesPrefix(4229625735290524, "15N9Z8L3AU4EB", 11);
    assert EncodesPrefix(152266526470458878, "15N9Z8L3AU4EB", 12);
    assert EncodesPrefix(5481594952936519619, "15N9Z8L3AU4EB", 13);
    EncodesPrefixSound(5481594952936519619, "15N9Z8L3AU4EB", 13);
  }

  /** The tabulated MaxInt64 / 2048. */
  lemma EncodeVectorMaxInt64Div2048()
    ensures Encode(MaxInt64 / 2048) == "18CE53UN18F"
  {
    assert MaxInt64 / 2048 == 4503599627370495;
    assert EncodesPrefix(1, "18CE53UN18F", 1);
    assert EncodesPrefix(44, "18CE53UN18F", 2);
    assert EncodesPrefix(1596, "18CE53UN18F", 3);
    assert EncodesPrefix(57470, "18CE53UN18F", 4);
    assert EncodesPrefix(2068925, "18CE53UN18F", 5);
    assert EncodesPrefix(74481303, "18CE53UN18F", 6);
    assert EncodesPrefix(2681326938, "18CE53UN18F", 7);
    assert EncodesPrefix(96527769791, "18CE53UN18F", 8);
    assert EncodesPrefix(3474999712477, "18CE53UN18F", 9);
    assert EncodesPrefix(125099989649180, "18CE53UN18F", 10);
    assert EncodesPrefix(4503599627370495, "18CE53UN18F", 11);
    EncodesPrefixSound(4503599627370495, "18CE53UN18F", 11);
  }

  /** The tabulated MaxInt64 / 512. */
  lemma EncodeVectorMaxInt64Div512()
    ensures Encode(MaxInt64 / 512) == "4XDKKFEK4XR"
  {
    assert MaxInt64 / 512 == 18014398509481983;
    assert EncodesPrefix(4, "4XDKKFEK4XR", 1);
    assert EncodesPrefix(177, "4XDKKFEK4XR", 2);
    assert EncodesPrefix(6385, "4XDKKFEK4XR", 3);
    assert EncodesPrefix(229880, "4XDKKFEK4XR", 4);
    assert EncodesPrefix(8275700, "4XDKKFEK4XR", 5);
    assert EncodesPrefix(297925215, "4XDKKFEK4XR", 6);
    assert EncodesPrefix(10725307754, "4XDKKFEK4XR", 7);
    assert EncodesPrefix(386111079164, "4XDKKFEK4XR", 8);
    assert EncodesPrefix(13899998849908, "4XDKKFEK4XR", 9);
    assert EncodesPrefix(500399958596721, "4XDKKFEK4XR", 10);
    assert EncodesPrefix(18014398509481983, "4XDKKFEK4XR", 11);
    EncodesPrefixSound(18014398509481983, "4XDKKFEK4XR", 11);
  }

  /** The tabulated MaxInt64, 2^63 - 1. */
  lemma EncodeVectorMaxInt64()
    ensures Encode(MaxInt64) == "1Y2P0IJ32E8E7"
  {
    assert MaxInt64 == 9223372036854775807;
    assert EncodesPrefix(1, "1Y2P0IJ32E8E7", 1);
    assert EncodesPrefix(70, "1Y2P0IJ32E8E7", 2);
    assert EncodesPrefix(2522, "1Y2P0IJ32E8E7", 3);
    assert EncodesPrefix(90817, "1Y2P0IJ32E8E7", 4);
    assert EncodesPrefix(3269412, "1Y2P0IJ32E8E7", 5);
    assert EncodesPrefix(117698850, "1Y2P0IJ32E8E7", 6);
    assert EncodesPrefix(4237158619, "1Y2P0IJ32E8E7", 7);
    assert EncodesPrefix(152537710287, "1Y2P0IJ32E8E7", 8);
    assert EncodesPrefix(5491357570334, "1Y2P0IJ32E8E7", 9);
    assert EncodesPrefix(197688872532038, "1Y2P0IJ32E8E7", 10);
    assert EncodesPrefix(7116799411153376, "1Y2P0IJ32E8E7", 11);
    assert EncodesPrefix(256204778801521550, "1Y2P0IJ32E8E7", 12);
    assert EncodesPrefix(9223372036854775807, "1Y2P0IJ32E8E7", 13);
    EncodesPrefixSound(9223372036854775807, "1Y2P0IJ32E8E7", 13);
  }

  /** The tabulated MaxUint64, 2^64 - 1, the largest value the package takes. */
  lemma EncodeVectorMaxUint64()
    ensures Encode(MaxUint64) == "3W5E11264SGSF"
  {
    assert MaxUint64 == 18446744073709551615;
    assert EncodesPrefix(3, "3W5E11264SGSF", 1);
    assert EncodesPrefix(140, "3W5E11264SGSF", 2);
    assert EncodesPrefix(5045, "3W5E11264SGSF", 3);
    assert EncodesPrefix(181634, "3W5E11264SGSF", 4);
    assert EncodesPrefix(6538825, "3W5E11264SGSF", 5);
    assert EncodesPrefix(235397701, "3W5E11264SGSF", 6);
    assert EncodesPrefix(8474317238, "3W5E11264SGSF", 7);
    assert EncodesPrefix(305075420574, "3W5E11264SGSF", 8);
    assert EncodesPrefix(10982715140668, "3W5E11264SGSF", 9);
    assert EncodesPrefix(395377745064076, "3W5E11264SGSF", 10);
    assert EncodesPrefix(14233598822306752, "3W5E11264SGSF", 11);
    assert EncodesPrefix(512409557603043100, "3W5E11264SGSF", 12);
    assert EncodesPrefix(18446744073709551615, "3W5E11264SGSF", 13);
    EncodesPrefixSound(18446744073709551615, "3W5E11264SGSF", 13);
  }
}
