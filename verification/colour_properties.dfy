/**
 * Properties of the hex codec and the contrast selector: the exact inputs
 * `ParseHex` accepts, its error taxonomy, the 3-digit expansion, the
 * round trip through `ToHex`, the shape of `IsValidHex`, and the
 * threshold behaviour of `ContrastingColour`.
 */
module ColourProperties {
  import opened Wrappers
  import opened Radix
  import opened ErrorCodes
  import opened Colour

  // ---------------------------------------------------------------- IsValidHex

  /** `k` copies of '#'. */
  function Hashes(k: nat): (s: string)
    ensures |s| == k && forall i :: 0 <= i < k ==> s[i] == '#'
  {
    seq(k, _ => '#')
  }

  /** Any number of leading '#'s is ignored by `IsValidHex`. */
  lemma {:induction false} IsValidHexIgnoresHashes(k: nat, t: string)
    ensures IsValidHex(Hashes(k) + t) == IsValidHex(t)
  {
    if k > 0 {
      var s := Hashes(k) + t;
      assert s[0] == '#';
      assert s[1..] == Hashes(k - 1) + t;
      IsValidHexIgnoresHashes(k - 1, t);
    } else {
      assert Hashes(k) + t == t;
    }
  }

  /**
   * Past its leading '#'s, a string is a valid hex code exactly when it is
   * an optional '+' followed by at least one hex digit of value below 2^32.
   * Every string splits this way (see `SplitLeadingHashes`).
   */
  lemma IsValidHexCharacterisation(k: nat, t: string)
    requires |t| == 0 || t[0] != '#'
    ensures IsValidHex(Hashes(k) + t) <==> IsUnsignedHexLiteral(t, U32_MAX)
  {
    IsValidHexIgnoresHashes(k, t);
    if |t| > 0 {
      assert ParseUnsignedHex(t, U32_MAX).Some? <==> IsUnsignedHexLiteral(t, U32_MAX);
    }
  }

  /** Every string is some leading '#'s followed by a part that does not start with '#'. */
  lemma {:induction false} SplitLeadingHashes(s: string) returns (k: nat, t: string)
    ensures s == Hashes(k) + t
    ensures |t| == 0 || t[0] != '#'
  {
    if |s| == 0 || s[0] != '#' {
      k, t := 0, s;
      assert s == Hashes(0) + s;
    } else {
      var k', t' := SplitLeadingHashes(s[1..]);
      k, t := k' + 1, t';
      assert s == [s[0]] + s[1..];
      assert Hashes(k) == ['#'] + Hashes(k');
    }
  }

  /** `TrimHashes` removes exactly the leading '#'s: what it drops is all '#'. */
  lemma {:induction false} TrimHashesSplits(hex: string)
    ensures hex == Hashes(|hex| - |TrimHashes(hex)|) + TrimHashes(hex)
    decreases |hex|
  {
    if |hex| > 0 && hex[0] == '#' {
      TrimHashesSplits(hex[1..]);
      var k := |hex| - |TrimHashes(hex)|;
      assert Hashes(k) == ['#'] + Hashes(k - 1);
      assert hex == [hex[0]] + hex[1..];
    } else {
      assert Hashes(0) + hex == hex;
    }
  }

  lemma {:induction false} Pow16Monotone(a: nat, b: nat)
    requires a <= b
    ensures Pow16(a) <= Pow16(b)
    decreases b
  {
    if a < b {
      Pow16Monotone(a, b - 1);
    }
  }

  /** Up to six digits, with an optional '+', always fit in a `u32`. */
  lemma ShortLiteralIsValidHex(h: string)
    requires |h| > 0
    requires 1 <= |LiteralDigits(h)| <= 6 && AllHexDigits(LiteralDigits(h))
    ensures IsValidHex(h)
  {
    var ds := LiteralDigits(h);
    Pow16Monotone(|ds|, 6);
    assert Pow16(6) == 16777216;
    assert h[0] != '#' by {
      if h[0] != '+' {
        assert IsHexDigit(ds[0]);
      }
    }
  }

  // ---------------------------------------------------------------- ParseHex

  /** A code `ParseHex` accepts: three hex digits, or six whose first may be a '+' sign. */
  predicate IsWellFormedHex(h: string) {
    || (|h| == 3 && AllHexDigits(h))
    || (|h| == 6 && (IsHexDigit(h[0]) || h[0] == '+') && AllHexDigits(h[1..]))
  }

  /** A 6-character input parses exactly when it is well formed. */
  lemma SixCharacterOkIff(h: string)
    requires |h| == 6
    ensures ParseHex(h).Ok? <==> IsWellFormedHex(h)
  {
    if IsWellFormedHex(h) {
      ShortLiteralIsValidHex(h);
      assert IsHexDigit(h[1]) && IsHexDigit(h[2]) && IsHexDigit(h[3]) && IsHexDigit(h[4]) && IsHexDigit(h[5]);
    }
    if ParseHex(h).Ok? {
      assert IsValidHex(h);
      assert HexPairToInt(h[0], h[1]).Some?;
      assert h[0] != '#';
      var ds := LiteralDigits(h);
      assert AllHexDigits(ds);
      forall i | 1 <= i < 6
        ensures IsHexDigit(h[i])
      {
        if h[0] == '+' {
          assert h[i] == ds[i - 1];
        } else {
          assert h[i] == ds[i];
        }
      }
    }
  }

  /** `ParseHex` succeeds exactly on the well-formed codes. */
  lemma ParseHexOkIff(h: string)
    ensures ParseHex(h).Ok? <==> IsWellFormedHex(h)
  {
    if |h| == 6 {
      SixCharacterOkIff(h);
    } else if |h| == 3 {
      var e := Expand(h);
      SixCharacterOkIff(e);
      if AllHexDigits(h) {
        ShortLiteralIsValidHex(h);
        assert AllHexDigits(e[1..]);
      }
      if ParseHex(h).Ok? {
        assert IsValidHex(h) && ParseHex(h) == ParseHex(e);
        assert IsHexDigit(e[1]) && IsHexDigit(e[2]) && IsHexDigit(e[4]);
      }
    }
  }

  /** A length error is raised exactly for a valid hex code whose raw length is neither 3 nor 6. */
  lemma LengthErrorIff(h: string, n: nat)
    ensures ParseHex(h) == Err(InvalidHexLength(n)) <==> IsValidHex(h) && n == |h| && n != 3 && n != 6
  {
  }

  /** Any input failing `IsValidHex` is reported verbatim as a character error. */
  lemma InvalidHexIsCharacterError(h: string)
    requires !IsValidHex(h)
    ensures ParseHex(h) == Err(InvalidHexCharacter(h))
    ensures FromHex(h) == Err(HEX_CHARACTER_PREFIX + h)
  {
  }

  /** No input that starts with '#' is ever parsed: the '#' is counted, never stripped. */
  lemma HashPrefixNeverParses(h: string)
    requires |h| > 0 && h[0] == '#'
    ensures ParseHex(h).Err?
  {
    ParseHexOkIff(h);
    if |h| == 3 {
      assert !IsHexDigit(h[0]);
    }
  }

  /** The channel value a valid pair of characters parses to. */
  function PairValue(a: char, b: char): (v: nat)
    requires IsHexDigit(a) || a == '+'
    requires IsHexDigit(b)
    ensures v < 256
  {
    if a == '+' then DigitValue(b) else 16 * DigitValue(a) + DigitValue(b)
  }

  /** The colour a well-formed code denotes, read pair by pair. */
  function SixDigitColour(h: string): (c: RgbColour)
    requires |h| == 6 && (IsHexDigit(h[0]) || h[0] == '+') && AllHexDigits(h[1..])
  {
    assert IsHexDigit(h[1]) && IsHexDigit(h[2]) && IsHexDigit(h[3]) && IsHexDigit(h[4]) && IsHexDigit(h[5]);
    RgbColour(PairValue(h[0], h[1]), PairValue(h[2], h[3]), PairValue(h[4], h[5]))
  }

  /** Six well-formed characters parse to their three pair values, in red, green, blue order. */
  lemma SixCharacterChannels(h: string)
    requires |h| == 6 && (IsHexDigit(h[0]) || h[0] == '+') && AllHexDigits(h[1..])
    ensures ParseHex(h) == Ok(SixDigitColour(h))
  {
    SixCharacterOkIff(h);
    assert IsHexDigit(h[2]) && IsHexDigit(h[4]);
  }

  /**
   * A 3-digit code parses as its doubled form, each channel being its
   * digit times 17.
   */
  lemma ThreeDigitExpansion(h: string)
    requires |h| == 3 && AllHexDigits(h)
    ensures ParseHex(h) == ParseHex(Expand(h))
    ensures ParseHex(h) == Ok(RgbColour(17 * DigitValue(h[0]), 17 * DigitValue(h[1]), 17 * DigitValue(h[2])))
  {
    ShortLiteralIsValidHex(h);
    var e := Expand(h);
    ParseValidThree(h);
    assert AllHexDigits(e[1..]);
    SixCharacterChannels(e);
    var d0, d1, d2 := DigitValue(h[0]), DigitValue(h[1]), DigitValue(h[2]);
    assert PairValue(e[0], e[1]) == 17 * d0;
    assert PairValue(e[2], e[3]) == 17 * d1;
    assert PairValue(e[4], e[5]) == 17 * d2;
  }

  /** A valid 3-character input is handed on, doubled, to the 6-character case. */
  lemma ParseValidThree(h: string)
    requires |h| == 3 && IsValidHex(h)
    ensures ParseHex(h) == ParseHex(Expand(h))
  {
  }

  /** Formatting then parsing gives the colour back. */
  lemma {:induction false} RoundTrip(c: RgbColour)
    ensures ParseHex(ToHex(c)) == Ok(c)
    ensures FromHex(ToHex(c)) == Ok(c)
  {
    var s := ToHex(c);
    assert AllHexDigits(s[1..]);
    SixCharacterChannels(s);
    assert s[0] != '+' && s[2] != '+' && s[4] != '+';
    assert PairValue(s[0], s[1]) == c.red;
    assert PairValue(s[2], s[3]) == c.green;
    assert PairValue(s[4], s[5]) == c.blue;
  }

  /** A colour's code is lower case: the lower-cased form of the input. */
  function LowerCase(h: string): (l: string)
    requires AllHexDigits(h)
    ensures |l| == |h|
    ensures forall i :: 0 <= i < |h| ==> l[i] == ToLowerHex(h[i])
  {
    seq(|h|, i requires 0 <= i < |h| => ToLowerHex(h[i]))
  }

  /** Parsing six hex digits then formatting gives the input back, folded to lower case. */
  lemma ParseThenFormat(h: string)
    requires |h| == 6 && AllHexDigits(h)
    ensures ParseHex(h).Ok?
    ensures ToHex(ParseHex(h).value) == LowerCase(h)
  {
    assert AllHexDigits(h[1..]);
    SixCharacterChannels(h);
    FormatSixDigits(h);
  }

  lemma FormatSixDigits(h: string)
    requires |h| == 6 && AllHexDigits(h)
    ensures ToHex(SixDigitColour(h)) == LowerCase(h)
  {
    var c := SixDigitColour(h);
    assert h[0] != '+' && h[2] != '+' && h[4] != '+';
    FormatPair(h[0], h[1], c.red);
    FormatPair(h[2], h[3], c.green);
    FormatPair(h[4], h[5], c.blue);
    var l := LowerCase(h);
    assert l == [l[0], l[1]] + [l[2], l[3]] + [l[4], l[5]];
  }

  /** A channel read from two digits is written back as the same digits in lower case. */
  lemma FormatPair(a: char, b: char, v: Channel)
    requires IsHexDigit(a) && IsHexDigit(b)
    requires v == 16 * DigitValue(a) + DigitValue(b)
    ensures FormatChannel(v) == [ToLowerHex(a), ToLowerHex(b)]
  {
    var f := FormatChannel(v);
    assert DigitValue(f[0]) == DigitValue(a) && DigitValue(f[1]) == DigitValue(b);
    LowerDigitUnique(f[0], ToLowerHex(a));
    LowerDigitUnique(f[1], ToLowerHex(b));
  }

  /** Two lower-case digits with the same value are the same character. */
  lemma LowerDigitUnique(a: char, b: char)
    requires IsLowerHexDigit(a) && IsLowerHexDigit(b)
    requires DigitValue(a) == DigitValue(b)
    ensures a == b
  {
  }

  /** Distinct colours have distinct codes. */
  lemma ToHexInjective(c: RgbColour, d: RgbColour)
    requires ToHex(c) == ToHex(d)
    ensures c == d
  {
  }

  /**
   * Rendering the error to a message loses nothing: two inputs give the
   * same `FromHex` answer exactly when they give the same structured one.
   */
  lemma RenderedErrorsKeepParse(h1: string, h2: string)
    ensures FromHex(h1) == FromHex(h2) <==> ParseHex(h1) == ParseHex(h2)
  {
    if FromHex(h1) == FromHex(h2) && ParseHex(h1).Err? {
      MessageInjectiveApartFromNames(ParseHex(h1).error, ParseHex(h2).error);
    }
  }

  // ---------------------------------------------------------------- contrast

  /** A colour at least as light in every channel keeps a black contrast. */
  lemma ContrastMonotone(c: RgbColour, d: RgbColour)
    requires c.red <= d.red && c.green <= d.green && c.blue <= d.blue
    requires ContrastingColour(c) == BLACK
    ensures ContrastingColour(d) == BLACK
  {
  }

  /**
   * The contrast of the contrast is the other of black and white. The crate
   * makes no such promise; it only follows from black lying below the
   * threshold and white above it.
   */
  lemma ContrastAlternates(c: RgbColour)
    ensures ContrastingColour(ContrastingColour(c)) != ContrastingColour(c)
  {
  }
}
