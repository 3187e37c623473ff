/**
 * The unit tests of the `colour` module, restated as lemmas about the
 * model, together with the edge cases that follow from the raw-length
 * switch of `from_hex`.
 */
module UnitTests {
  import opened Wrappers
  import opened Radix
  import opened ErrorCodes
  import opened Colour
  import opened ColourProperties

  lemma IsValidHexSixChar()
    ensures IsValidHex("d3d09f")
  {
    ShortLiteralIsValidHex("d3d09f");
  }

  lemma IsValidHexThreeChar()
    ensures IsValidHex("fea")
  {
    ShortLiteralIsValidHex("fea");
  }

  lemma IsValidHexSixCharWithPrefix()
    ensures IsValidHex("#f34a23")
  {
    ShortLiteralIsValidHex("f34a23");
    assert "#f34a23"[1..] == "f34a23";
  }

  lemma IsValidHexThreeCharWithPrefix()
    ensures IsValidHex("#a4d")
  {
    ShortLiteralIsValidHex("a4d");
    assert "#a4d"[1..] == "a4d";
  }

  /** Length is not checked, and any number of '#'s is skipped. */
  lemma IsValidHexIgnoresLength()
    ensures IsValidHex("abcde")
    ensures IsValidHex("##abc")
  {
    ShortLiteralIsValidHex("abcde");
    ShortLiteralIsValidHex("abc");
    assert "##abc"[1..] == "#abc" && "#abc"[1..] == "abc";
  }

  lemma IsValidHexThreeCharInvalid()
    ensures !IsValidHex("dkl")
  {
    NonDigitIsInvalid("dkl", 1);
  }

  lemma IsValidHexThreeCharWithPrefixInvalid()
    ensures !IsValidHex("#9x2")
  {
    assert "#9x2"[1..] == "9x2";
    NonDigitIsInvalid("9x2", 1);
  }

  lemma IsValidHexSixCharInvalid()
    ensures !IsValidHex("dkldsa")
  {
    NonDigitIsInvalid("dkldsa", 1);
  }

  lemma IsValidHexSixCharWithPrefixInvalid()
    ensures !IsValidHex("#9x2444")
  {
    assert "#9x2444"[1..] == "9x2444";
    NonDigitIsInvalid("9x2444", 1);
  }

  lemma IsValidHexInvalid()
    ensures !IsValidHex("fdsfdsfrtre")
  {
    NonDigitIsInvalid("fdsfdsfrtre", 2);
  }

  /** The five rejected examples of the `colour` module's tests. */
  lemma IsValidHexRejectsExamples()
    ensures !IsValidHex("dkl") && !IsValidHex("#9x2") && !IsValidHex("dkldsa")
    ensures !IsValidHex("#9x2444") && !IsValidHex("fdsfdsfrtre")
  {
    IsValidHexThreeCharInvalid();
    IsValidHexThreeCharWithPrefixInvalid();
    IsValidHexSixCharInvalid();
    IsValidHexSixCharWithPrefixInvalid();
    IsValidHexInvalid();
  }

  /** A non-digit after the first character makes a string starting with a digit invalid. */
  lemma NonDigitIsInvalid(s: string, i: nat)
    requires 0 < i < |s| && IsHexDigit(s[0]) && !IsHexDigit(s[i])
    ensures !IsValidHex(s)
  {
    assert LiteralDigits(s) == s;
  }

  /** Nothing to parse: empty, only a '#', or only a sign. */
  lemma IsValidHexRejectsDegenerate()
    ensures !IsValidHex("") && !IsValidHex("#") && !IsValidHex("+")
  {
    assert "#"[1..] == "";
  }

  /** Nine digits exceed a `u32`: valid characters, but not a valid hex code. */
  lemma IsValidHexRejectsOverflow()
    ensures !IsValidHex("fffffffff")
  {
    var s := "fffffffff";
    assert AllHexDigits(s) && DigitValue(s[0]) == 15;
    LongDigitStringOverflows(s);
  }

  /** Nine or more digits, the first non-zero, exceed a `u32`. */
  lemma LongDigitStringOverflows(s: string)
    requires |s| >= 9 && AllHexDigits(s) && DigitValue(s[0]) >= 1
    ensures !IsValidHex(s)
  {
    assert LiteralDigits(s) == s;
    Pow16Eight();
    Pow16Monotone(8, |s| - 1);
    HexValueLowerBound(s);
  }

  lemma Pow16Eight()
    ensures Pow16(8) == 0x1_0000_0000
  {
    assert Pow16(2) == 256;
    assert Pow16(4) == 65536;
    assert Pow16(6) == 16777216;
  }

  lemma ParseHexSixChar()
    ensures ParseHex("F43C8E") == Ok(RgbColour(244, 60, 142))
  {
    var six := "F43C8E";
    assert AllHexDigits(six[1..]);
    SixCharacterChannels(six);
  }

  lemma ParseHexThreeChar()
    ensures ParseHex("d15") == Ok(RgbColour(221, 17, 85))
  {
    ThreeDigitExpansion("d15");
  }

  lemma ParseHexInvalidChar()
    ensures ParseHex("F43C8X") == Err(InvalidHexCharacter("F43C8X"))
    ensures FromHex("F43C8X") == Err(Message(InvalidHexCharacter("F43C8X")))
  {
    assert !IsHexDigit("F43C8X"[5]);
  }

  lemma ParseHexInvalidLength()
    ensures ParseHex("F43C") == Err(InvalidHexLength(4))
    ensures FromHex("F43C") == Err(Message(InvalidHexLength(4)))
  {
    ShortLiteralIsValidHex("F43C");
  }

  /** A leading '#' is counted in the length. */
  lemma HashPrefixedThreeDigits()
    ensures ParseHex("#abc") == Err(InvalidHexLength(4))
  {
    IsValidHexThreeCharWithPrefixAbc();
  }

  lemma IsValidHexThreeCharWithPrefixAbc()
    ensures IsValidHex("#abc")
  {
    ShortLiteralIsValidHex("abc");
    assert "#abc"[1..] == "abc";
  }

  /** The six-digit code of the tests, with its '#', is rejected for its length. */
  lemma HashPrefixedSixDigits()
    ensures ParseHex("#f34a23") == Err(InvalidHexLength(7))
  {
    IsValidHexSixCharWithPrefix();
  }

  /** At length 6 a leading '#' lands in the first pair and fails as a character. */
  lemma HashPrefixedSixChar()
    ensures ParseHex("#abcde") == Err(InvalidHexCharacter("#abcde"))
  {
    ShortLiteralIsValidHex("abcde");
    assert "#abcde"[1..] == "abcde";
  }

  /** At length 3 the error names the doubled string, not the input. */
  lemma HashPrefixedThreeChar()
    ensures ParseHex("#ab") == Err(InvalidHexCharacter("##aabb"))
  {
    ShortLiteralIsValidHex("ab");
    assert "#ab"[1..] == "ab";
    assert Expand("#ab") == "##aabb";
    ShortLiteralIsValidHex("aabb");
    assert "##aabb"[1..] == "#aabb" && "#aabb"[1..] == "aabb";
  }

  /** A 3-character input that fails the validity gate reports itself, not its doubled form. */
  lemma InvalidThreeCharReportsInput()
    ensures ParseHex("dkl") == Err(InvalidHexCharacter("dkl"))
  {
    IsValidHexThreeCharInvalid();
  }

  /** A '+' passes the gate at length 3, but "++" is not a `u8`: the doubled form is reported. */
  lemma PlusPrefixedThreeChar()
    ensures ParseHex("+ab") == Err(InvalidHexCharacter("++aabb"))
  {
    ShortLiteralIsValidHex("+ab");
    assert Expand("+ab") == "++aabb";
    assert !IsHexDigit(LiteralDigits("++aabb")[0]);
  }

  /** The empty string fails the validity gate, so it is a character error, not a length error. */
  lemma EmptyIsCharacterError()
    ensures ParseHex("") == Err(InvalidHexCharacter(""))
  {
  }

  /** A leading '+' in a 6-character code is read as a sign of the first pair. */
  lemma PlusPrefixedSixChar()
    ensures ParseHex("+abcde") == Ok(RgbColour(10, 0xbc, 0xde))
  {
    var s := "+abcde";
    assert AllHexDigits(s[1..]);
    SixCharacterChannels(s);
  }

  lemma ContrastDarkColour()
    ensures ParseHex("054").Ok? && ContrastingColour(ParseHex("054").value) == WHITE
  {
    ThreeDigitExpansion("054");
  }

  lemma ContrastLightColour()
    ensures ParseHex("f54").Ok? && ContrastingColour(ParseHex("f54").value) == BLACK
  {
    ThreeDigitExpansion("f54");
  }
}
