/**
 * The closed error taxonomy of the colour code and the fixed message each
 * error is rendered to (`From<ErrorCode> for String`).
 */
module ErrorCodes {
  import opened Radix

  datatype ErrorCode =
    | InvalidHexCharacter(value: string)
    | InvalidHexLength(length: nat)
    | InvalidColourName(name: string)
    | CanvasError
    | HslConversionError(rgb: string)

  // The templates are written as short pieces joined together, so that
  // their first characters stay visible to the verifier.
  const INVALID_PREFIX := "Invalid: "
  const HEX_CHARACTER_TEXT := "found invalid characters in hex code: "
  const HEX_CHARACTER_PREFIX := INVALID_PREFIX + HEX_CHARACTER_TEXT
  const HEX_LENGTH_PREFIX := INVALID_PREFIX + "hex code has invalid length: "
  const HEX_LENGTH_SUFFIX := ". Length must be 3 or 6."
  const COLOUR_NAME_SUFFIX := " is not a valid css colour name"
  const CANVAS_MESSAGE := "Canvas: " + "error occurred while getting image data from canvas"
  const HSL_PREFIX := "HSL: " + "could not convert "
  const HSL_SUFFIX := " to HSL format"

  /** The errors raised for a malformed hex code or colour name. */
  predicate IsInputValidationError(e: ErrorCode) {
    e.InvalidHexCharacter? || e.InvalidHexLength? || e.InvalidColourName?
  }

  /** The human-readable message for an error; total over the closed set of variants. */
  function Message(e: ErrorCode): (m: string)
    ensures IsInputValidationError(e) <==> INVALID_PREFIX <= m
    ensures e.CanvasError? <==> m == CANVAS_MESSAGE
    ensures e.HslConversionError? <==> (|m| > 0 && m[0] == 'H')
  {
    match e
    case InvalidHexCharacter(v) =>
      var m := HEX_CHARACTER_PREFIX + v;
      assert m[..9] == INVALID_PREFIX && m[0] == 'I';
      m
    case InvalidHexLength(n) =>
      var m := HEX_LENGTH_PREFIX + NatToDecimal(n) + HEX_LENGTH_SUFFIX;
      assert m[..9] == INVALID_PREFIX && m[0] == 'I';
      m
    case InvalidColourName(v) =>
      var m := INVALID_PREFIX + v + COLOUR_NAME_SUFFIX;
      assert m[..9] == INVALID_PREFIX && m[0] == 'I';
      m
    case CanvasError =>
      assert CANVAS_MESSAGE[0] == 'C';
      CANVAS_MESSAGE
    case HslConversionError(rgb) =>
      var m := HSL_PREFIX + rgb + HSL_SUFFIX;
      assert m[0] == 'H';
      m
  }

  /** The middle of `a + b + c` is `b`. */
  lemma Middle(a: string, b: string, c: string)
    ensures (a + b + c)[|a|..|a| + |b|] == b
  {
  }

  /** Distinct lengths give distinct length messages: the number is always recoverable. */
  lemma LengthMessageInjective(n: nat, k: nat)
    requires n != k
    ensures Message(InvalidHexLength(n)) != Message(InvalidHexLength(k))
  {
    var dn, dk := NatToDecimal(n), NatToDecimal(k);
    if Message(InvalidHexLength(n)) == Message(InvalidHexLength(k)) {
      assert |dn| == |dk|;
      Middle(HEX_LENGTH_PREFIX, dn, HEX_LENGTH_SUFFIX);
      Middle(HEX_LENGTH_PREFIX, dk, HEX_LENGTH_SUFFIX);
      DecimalInjective(n, k);
      assert false;
    }
  }

  /**
   * Two errors with the same message are the same error, unless one of them
   * is an `InvalidColourName`: the message carries every other variant's
   * payload and tells the variants apart.
   */
  lemma MessageInjectiveApartFromNames(e1: ErrorCode, e2: ErrorCode)
    requires !e1.InvalidColourName? && !e2.InvalidColourName?
    requires Message(e1) == Message(e2)
    ensures e1 == e2
  {
    var m := Message(e1);
    match e1
    case InvalidHexCharacter(v) =>
      assert m[9] == 'f';
      assert e2.InvalidHexCharacter?;
      assert v == m[|HEX_CHARACTER_PREFIX|..] == e2.value;
    case InvalidHexLength(n) =>
      assert m[9] == 'h';
      assert e2.InvalidHexLength?;
      if n != e2.length {
        LengthMessageInjective(n, e2.length);
      }
    case CanvasError =>
    case HslConversionError(rgb) =>
      assert e2.HslConversionError?;
      Middle(HSL_PREFIX, rgb, HSL_SUFFIX);
      Middle(HSL_PREFIX, e2.rgb, HSL_SUFFIX);
  }

  /** Within the `InvalidColourName` variant the name is recoverable from the message. */
  lemma ColourNameMessageInjective(v: string, w: string)
    requires Message(InvalidColourName(v)) == Message(InvalidColourName(w))
    ensures v == w
  {
    Middle(INVALID_PREFIX, v, COLOUR_NAME_SUFFIX);
    Middle(INVALID_PREFIX, w, COLOUR_NAME_SUFFIX);
  }

  /**
   * Across variants the rendering is not injective: a colour name can be
   * chosen so that its message is also a hex-character message.
   */
  lemma ColourNameMessageCollides(x: string)
    ensures Message(InvalidColourName(HEX_CHARACTER_TEXT + x))
         == Message(InvalidHexCharacter(x + COLOUR_NAME_SUFFIX))
  {
    Regroup(INVALID_PREFIX, HEX_CHARACTER_TEXT, x, COLOUR_NAME_SUFFIX);
  }

  lemma Regroup(a: string, b: string, x: string, c: string)
    ensures a + (b + x) + c == (a + b) + (x + c)
  {
  }
}
