/**
 * The crate root's twin of `RgbColour::from_hex`, whose errors are
 * JavaScript values carrying the rendered message
 * (`From<ErrorCode> for JsValue`). Validation, pair parsing, formatting,
 * contrast and the colour check are the same functions as in `Colour`.
 */
module WasmApi {
  import opened Wrappers
  import opened Radix
  import opened ErrorCodes
  import opened Host
  import opened Colour
  import opened ColourProperties

  /** `From<ErrorCode> for JsValue`: a JavaScript string holding the error's message. */
  function JsError(e: ErrorCode): (v: JsValue)
    ensures v.JsString?
    ensures IsInputValidationError(e) <==> INVALID_PREFIX <= v.text
    ensures e.CanvasError? <==> v.text == CANVAS_MESSAGE
  {
    JsString(Message(e))
  }

  /** Apart from colour names, the error can be read back from its JavaScript value. */
  lemma JsErrorInjectiveApartFromNames(e1: ErrorCode, e2: ErrorCode)
    requires !e1.InvalidColourName? && !e2.InvalidColourName?
    requires JsError(e1) == JsError(e2)
    ensures e1 == e2
  {
    MessageInjectiveApartFromNames(e1, e2);
  }

  /** `RgbColour::from_hex` of the crate root. */
  function FromHexJs(hex: string): (r: Result<RgbColour, JsValue>)
    ensures r.Ok? <==> IsWellFormedHex(hex)
    ensures r.Err? ==> r.error.JsString? && INVALID_PREFIX <= r.error.text
    ensures !IsValidHex(hex) ==> r == Err(JsString(HEX_CHARACTER_PREFIX + hex))
  {
    ParseHexOkIff(hex);
    match ParseHex(hex)
    case Ok(c) => Ok(c)
    case Err(e) => Err(JsError(e))
  }

  /** The two copies of `from_hex` agree: same colour, same message, different carrier. */
  lemma TwinsAgree(hex: string)
    ensures FromHexJs(hex).Ok? <==> FromHex(hex).Ok?
    ensures FromHexJs(hex).Ok? ==> FromHexJs(hex).value == FromHex(hex).value
    ensures FromHexJs(hex).Err? ==> FromHexJs(hex).error == JsString(FromHex(hex).error)
  {
  }

  /** The crate root's `from_hex` also inverts `to_hex`. */
  lemma JsRoundTrip(c: RgbColour)
    ensures FromHexJs(ToHex(c)) == Ok(c)
  {
    RoundTrip(c);
  }
}
