/** The boundary to the JavaScript host the library is compiled for. */
module Host {
  import opened Wrappers

  /** A JavaScript value: a string, or any other host object (opaque here). */
  datatype JsValue = JsString(text: string) | JsObject

  /**
   * The host's check that a string is a CSS colour name
   * (`is_valid_colour_name`): it may answer, or fail with a host error.
   */
  type ColourNameCheck = string -> Result<bool, JsValue>
}
