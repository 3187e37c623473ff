/**
 * The hex-colour codec and the contrast selector of `RgbColour`: hex
 * validation, parsing of 3- and 6-digit codes, lower-case hex formatting,
 * the YIQ black-or-white choice, and the colour-string validity check.
 * The logic is the same in the crate root and in the `colour` module;
 * `ParseHex` returns the structured error, and `FromHex` the rendered
 * message that `RgbColour::from_hex` returns.
 */
module Colour {
  import opened Wrappers
  import opened Radix
  import opened ErrorCodes
  import opened Host

  /** An 8-bit unsigned channel (`u8`). */
  type Channel = n: nat | n < 256

  datatype RgbColour = RgbColour(red: Channel, green: Channel, blue: Channel)

  const U8_MAX: nat := 0xFF
  const U32_MAX: nat := 0xFFFF_FFFF

  const BLACK := RgbColour(0, 0, 0)
  const WHITE := RgbColour(255, 255, 255)

  /** `hex` with all of its leading '#'s removed. */
  function TrimHashes(hex: string): (t: string)
    ensures |t| <= |hex|
    ensures |t| == 0 || t[0] != '#'
    decreases |hex|
  {
    if |hex| > 0 && hex[0] == '#' then TrimHashes(hex[1..]) else hex
  }

  /**
   * `is_valid_hex`: false on the empty string, leading '#'s are skipped one
   * at a time, and the rest must parse as a `u32` in base 16. Only the
   * characters and the magnitude are checked, never the length: past its
   * leading '#'s the input must be an optional '+' and at least one hex
   * digit, with value below 2^32.
   */
  function IsValidHex(hex: string): (r: bool)
    ensures r <==> IsUnsignedHexLiteral(TrimHashes(hex), U32_MAX)
    decreases |hex|
  {
    if |hex| == 0 then false
    else if hex[0] == '#' then IsValidHex(hex[1..])
    else ParseUnsignedHex(hex, U32_MAX).Some?
  }

  /** `hex_pair_to_int`: the two characters parsed as a `u8` in base 16. */
  function HexPairToInt(a: char, b: char): (r: Option<Channel>)
    ensures r.Some? <==> (IsHexDigit(a) || a == '+') && IsHexDigit(b)
    ensures r.Some? && a == '+' ==> r.value == DigitValue(b)
    ensures r.Some? && a != '+' ==> r.value == 16 * DigitValue(a) + DigitValue(b)
  {
    var pair := [a, b];
    assert pair[1..] == [b];
    TwoDigitValue(a, b);
    match ParseUnsignedHex(pair, U8_MAX)
    case Some(v) => Some(v)
    case None => None
  }

  /** A 3-digit code with every digit doubled: "rgb" becomes "rrggbb". */
  function Expand(hex: string): (e: string)
    requires |hex| == 3
    ensures |e| == 6
    ensures forall i :: 0 <= i < 6 ==> e[i] == hex[i / 2]
  {
    [hex[0], hex[0], hex[1], hex[1], hex[2], hex[2]]
  }

  /**
   * `RgbColour::from_hex` with the error kept structured. The validity
   * gate comes first; the length switch then looks at the raw input, so a
   * leading '#' counts towards the length and is never stripped.
   */
  function ParseHex(hex: string): (r: Result<RgbColour, ErrorCode>)
    ensures r.Ok? ==> |hex| == 3 || |hex| == 6
    ensures r.Err? ==> r.error.InvalidHexCharacter? || r.error.InvalidHexLength?
    ensures r.Err? && r.error.InvalidHexCharacter? ==>
              r.error.value == hex || (|hex| == 3 && r.error.value == Expand(hex))
    ensures r.Err? && r.error.InvalidHexLength? ==>
              IsValidHex(hex) && r.error.length == |hex| && |hex| != 3 && |hex| != 6
    decreases if |hex| == 3 then 1 else 0
  {
    if !IsValidHex(hex) then Err(InvalidHexCharacter(hex))
    else if |hex| == 3 then ParseHex(Expand(hex))
    else if |hex| == 6 then
      match (HexPairToInt(hex[0], hex[1]), HexPairToInt(hex[2], hex[3]), HexPairToInt(hex[4], hex[5]))
      case (Some(red), Some(green), Some(blue)) => Ok(RgbColour(red, green, blue))
      case _ => Err(InvalidHexCharacter(hex))
    else Err(InvalidHexLength(|hex|))
  }

  /** `RgbColour::from_hex` as the `colour` module declares it: errors are rendered messages. */
  function FromHex(hex: string): (r: Result<RgbColour, string>)
    ensures r.Ok? <==> ParseHex(hex).Ok?
    ensures r.Ok? ==> r.value == ParseHex(hex).value
    ensures r.Err? ==> INVALID_PREFIX <= r.error
  {
    match ParseHex(hex)
    case Ok(c) => Ok(c)
    case Err(e) => Err(Message(e))
  }

  /** One channel as `{:02x}` writes it: two lower-case digits, zero-padded. */
  function FormatChannel(v: Channel): (s: string)
    ensures |s| == 2 && IsLowerHexDigit(s[0]) && IsLowerHexDigit(s[1])
    ensures 16 * DigitValue(s[0]) + DigitValue(s[1]) == v
  {
    [LowerHexDigit(v / 16), LowerHexDigit(v % 16)]
  }

  /** `to_hex`: "rrggbb" in lower case, with no '#'. */
  function ToHex(c: RgbColour): (s: string)
    ensures |s| == 6
    ensures forall i :: 0 <= i < 6 ==> IsLowerHexDigit(s[i])
    ensures IsLowerHexDigit(s[0]) && IsLowerHexDigit(s[1]) && 16 * DigitValue(s[0]) + DigitValue(s[1]) == c.red
    ensures IsLowerHexDigit(s[2]) && IsLowerHexDigit(s[3]) && 16 * DigitValue(s[2]) + DigitValue(s[3]) == c.green
    ensures IsLowerHexDigit(s[4]) && IsLowerHexDigit(s[5]) && 16 * DigitValue(s[4]) + DigitValue(s[5]) == c.blue
  {
    FormatChannel(c.red) + FormatChannel(c.green) + FormatChannel(c.blue)
  }

  /**
   * The weighted channel sum of the YIQ luma, computed in `u32`; it never
   * exceeds 255000, so the `u32` arithmetic cannot overflow.
   */
  function LumaWeightedSum(c: RgbColour): (w: nat)
    ensures w <= 255000 <= U32_MAX
  {
    c.red * 299 + c.green * 587 + c.blue * 114
  }

  /** The YIQ luma, truncated by the integer division. */
  function Luma(c: RgbColour): (y: nat)
    ensures y <= 255
  {
    LumaWeightedSum(c) / 1000
  }

  /**
   * `get_contrasting_colour`: black for a light colour (luma at least 128),
   * white otherwise.
   */
  function ContrastingColour(c: RgbColour): (r: RgbColour)
    ensures r == BLACK || r == WHITE
    ensures r == BLACK <==> LumaWeightedSum(c) >= 128000
  {
    if Luma(c) >= 128 then BLACK else WHITE
  }

  /**
   * `is_valid_colour`: a valid hex code, or a name the host recognises. A
   * host error counts as "not a name" and is never passed on.
   */
  function IsValidColour(colour: string, isColourName: ColourNameCheck): (b: bool)
    ensures IsValidHex(colour) ==> b
    ensures isColourName(colour).Err? ==> b == IsValidHex(colour)
    ensures b <==> IsValidHex(colour) || isColourName(colour) == Ok(true)
  {
    var isHex := IsValidHex(colour);
    match isColourName(colour)
    case Ok(isName) => isHex || isName
    case Err(_) => isHex
  }
}
