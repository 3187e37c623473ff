# colour-fun hex codec and contrast selector, in Dafny

This project models the integer and string core of the `colour-fun` Rust
crate: the hex-colour codec of `RgbColour` and the black-or-white contrast
selector. The codec covers `is_valid_hex`, `hex_pair_to_int`,
`RgbColour::from_hex` and `to_hex`. The model also covers `is_valid_colour`,
the `ErrorCode` taxonomy, and the message each error is rendered to.

The crate holds two copies of this logic. `src/lib.rs` is the crate root; its
errors are `JsValue`s. `src/colour.rs` returns `String` errors and carries the
unit tests. In both copies the codec, contrast and validation functions are
the same apart from the error carrier, so the model defines the shared logic
once:

| operation | src/colour.rs | src/lib.rs | model |
|---|---|---|---|
| `ErrorCode` and its messages | src/error_code.rs:1-29 | 13-45 | `ErrorCodes` |
| `RgbColour` | 52-58 | 91-102 | `Colour.RgbColour` |
| `from_hex` | 61-94 | 104-137 | `Colour.ParseHex`, `Colour.FromHex`, `WasmApi.FromHexJs` |
| `get_contrasting_colour` | 133-148 | 171-178 | `Colour.ContrastingColour` |
| `to_hex` | 150-152 | 180-182 | `Colour.ToHex` |
| `is_valid_hex` | 257-267 | 382-393 | `Colour.IsValidHex` |
| `is_valid_colour` | 269-278 | 395-404 | `Colour.IsValidColour` |
| `hex_pair_to_int` | 280-282 | 406-408 | `Colour.HexPairToInt` |

Files and modules:

- `wrappers.dfy` (`Wrappers`): `Option` and `Result`.
- `radix.dfy` (`Radix`): hex digits as `char::to_digit(16)` reads them. It
  models the unsigned case of Rust's `from_str_radix` with radix 16 as its
  checked digit loop (`Accumulate`), and proves a closed form for it. It also
  holds the decimal rendering `{}` uses for a `usize`, with a proof that it
  can be read back.
- `error_code.dfy` (`ErrorCodes`): the five error variants and their messages.
- `host.dfy` (`Host`): `JsValue` and the host's colour-name check, which is a
  function parameter.
- `colour.dfy` (`Colour`): the codec, the contrast selector and
  `is_valid_colour`.
- `colour_properties.dfy` (`ColourProperties`): what `from_hex` accepts, its
  errors, the 3-digit expansion, both round trips with `to_hex`, the shape of
  `is_valid_hex`, and the contrast threshold.
- `wasm_api.dfy` (`WasmApi`): the crate root's `JsValue`-erroring `from_hex`,
  and its agreement with the `colour` module's copy.
- `unit_tests.dfy` (`UnitTests`): the unit tests of `src/colour.rs` and the
  edge cases of the raw-length switch, as lemmas.

Behaviour of the code that the model reproduces as written:

- `is_valid_hex` skips any number of leading `#`s. The rest must parse as a
  `u32` in base 16: an optional `+`, at least one hex digit of either case,
  and a value below 2^32. It never looks at the length. So `"abcde"`,
  `"##abc"` and `"+abc"` are valid, while `"fffffffff"` is not.
- `from_hex` switches on the raw length and never strips `#`. So no input
  starting with `#` parses (`HashPrefixNeverParses`): `"#abc"` is a length
  error (4), and `"#abcde"` is a character error. A 3-character input that
  passes `is_valid_hex` but fails as a 6-character code (`"#ab"`, `"+ab"`)
  reports its doubled form: `"#ab"` reports `"##aabb"`. A 3-character input
  that fails `is_valid_hex` (`"dkl"`) reports itself. A `+` in the first
  position of a 6-character code is read as a sign: `"+abcde"` is
  (10, 188, 222).
- The empty string is a character error, `InvalidHexCharacter("")`, because
  `is_valid_hex("")` is false; it never reaches the length switch.
- Rust's `str::len` counts bytes, and the model counts characters. The two
  agree wherever the length is used, because it is only used after
  `is_valid_hex` has accepted the input, and such an input is ASCII.

## Model

| member | source | states |
|---|---|---|
| Radix.ParseUnsignedHex | src/colour.rs:266 | `from_str_radix(s, 16)` for an unsigned type succeeds exactly on an optional `+` followed by at least one hex digit with value at most the type's maximum; the result is the big-endian value of the digits |
| Radix.Accumulate | src/lib.rs:392 | the checked digit loop (digit test, then checked `*16`, then checked `+d`) fails exactly when a character is not a digit or the unchecked result exceeds the maximum, and otherwise returns that result |
| Radix.HornerIsHexValue | src/colour.rs:281 | the digit loop started from zero computes the base-16 value of the digits, most significant first |
| Radix.TwoDigitValue | src/lib.rs:407 | a two-digit string has value `16*a + b`, a one-digit string the digit's value |
| Radix.NatToDecimal | src/error_code.rs:16-19 | the length in a message is a non-empty run of decimal digits with no leading zero |
| Radix.DecimalRoundTrip | src/error_code.rs:17-18 | reading the rendered length back as a decimal number gives the length |
| Radix.DecimalInjective | src/lib.rs:29-32 | distinct lengths render to distinct decimal strings |
| ErrorCodes.Message | src/error_code.rs:11-28 | rendering is total over the five variants; the three input-validation variants are exactly those whose message starts with `Invalid: `; `CanvasError` is exactly the one fixed canvas message; only `HslConversionError` starts with `H` |
| ErrorCodes.LengthMessageInjective | src/error_code.rs:16-19 | distinct lengths give distinct `InvalidHexLength` messages |
| ErrorCodes.MessageInjectiveApartFromNames | src/lib.rs:22-45 | two errors, neither an `InvalidColourName`, with the same message are the same error, payload included |
| ErrorCodes.ColourNameMessageInjective | src/error_code.rs:20-22 | the colour name is recoverable from an `InvalidColourName` message |
| ErrorCodes.ColourNameMessageCollides | src/error_code.rs:13-22 | rendering is not injective across variants: a suitable colour name yields a hex-character message |
| Colour.TrimHashes | src/colour.rs:262-264 | the part of the input `is_valid_hex` goes on to parse never starts with `#` and is no longer than the input |
| Colour.IsValidHex | src/colour.rs:257-267 | an input is a valid hex code exactly when, past its leading `#`s, it is an optional `+` followed by at least one hex digit with value below 2^32; the empty string and a lone `#` or `+` are therefore invalid, and length is never checked |
| ColourProperties.TrimHashesSplits | src/lib.rs:388-390 | what `is_valid_hex` skips is exactly a run of leading `#`s: the input is that run followed by the part it parses |
| Colour.HexPairToInt | src/colour.rs:280-282 | two characters parse as a `u8` exactly when the first is a hex digit or `+` and the second a hex digit; the value is `16*a + b`, or `b` after a `+` |
| Colour.Expand | src/colour.rs:69-77 | a 3-digit code becomes six characters, each digit doubled in place |
| Colour.ParseHex | src/colour.rs:61-94 | success only at raw length 3 or 6; every error is a character or a length error; a character error carries the input or, at length 3, its doubled form; a length error carries the raw length of a valid hex code that is neither 3 nor 6 long |
| Colour.FromHex | src/colour.rs:87-92 | the `String`-erroring `from_hex` succeeds exactly when the structured parse does, with the same colour, and every error message starts with `Invalid: ` |
| Colour.FormatChannel | src/colour.rs:151 | `{:02x}` of a `u8` is two lower-case hex digits whose value is the channel |
| Colour.ToHex | src/colour.rs:150-152 | `to_hex` is six lower-case hex digits, each pair the value of red, green, blue in turn |
| Colour.LumaWeightedSum | src/colour.rs:134-135 | the weighted sum `299r + 587g + 114b` is at most 255000, so the `u32` arithmetic cannot overflow |
| Colour.Luma | src/lib.rs:172-173 | the truncated YIQ luma is at most 255 |
| Colour.ContrastingColour | src/colour.rs:133-148 | the result is always black or white, and black exactly when `299r + 587g + 114b >= 128000`, i.e. the truncated luma is at least 128 |
| Colour.IsValidColour | src/colour.rs:269-278 | a valid hex code is a valid colour; a host error leaves exactly the hex result; otherwise valid means hex-valid or a recognised name |
| ColourProperties.IsValidHexIgnoresHashes | src/colour.rs:262-264 | prepending any number of `#`s does not change `is_valid_hex` |
| ColourProperties.IsValidHexCharacterisation | src/colour.rs:257-267 | past its leading `#`s a string is a valid hex code exactly when it is an optional `+` and at least one hex digit with value below 2^32 |
| ColourProperties.SplitLeadingHashes | src/lib.rs:388-390 | every string is some leading `#`s followed by a part not starting with `#`, so the characterisation covers every input |
| ColourProperties.ShortLiteralIsValidHex | src/lib.rs:383-393 | an optional `+` followed by one to six hex digits always passes `is_valid_hex` |
| ColourProperties.SixCharacterOkIff | src/colour.rs:78-91 | a 6-character input parses exactly when its first character is a hex digit or `+` and the other five are hex digits |
| ColourProperties.ParseHexOkIff | src/lib.rs:104-137 | `from_hex` succeeds exactly on three hex digits, or six characters that are hex digits except that the first may be `+` |
| ColourProperties.LengthErrorIff | src/colour.rs:68-92 | `InvalidHexLength(n)` is returned exactly when the input passes `is_valid_hex`, `n` is its raw length, and `n` is neither 3 nor 6 |
| ColourProperties.InvalidHexIsCharacterError | src/lib.rs:105-109 | an input failing `is_valid_hex` yields `InvalidHexCharacter` with the input verbatim, rendered as the fixed prefix followed by the input |
| ColourProperties.HashPrefixNeverParses | src/lib.rs:111-135 | no input starting with `#` is ever parsed successfully |
| ColourProperties.SixCharacterChannels | src/lib.rs:121-129 | a well-formed 6-character input parses to its three pair values in red, green, blue order |
| ColourProperties.ThreeDigitExpansion | src/lib.rs:112-120 | a 3-digit code parses like its doubled form, each channel being its digit times 17 |
| ColourProperties.ParseValidThree | src/colour.rs:69-77 | a valid 3-character input is handed on, doubled, to the 6-character case |
| ColourProperties.RoundTrip | src/colour.rs:61-94 | parsing the output of `to_hex` gives the colour back, both structurally and through the `String`-erroring `from_hex` |
| ColourProperties.ParseThenFormat | src/colour.rs:150-152 | six hex digits parse, and formatting the result gives the input folded to lower case |
| ColourProperties.FormatSixDigits | src/lib.rs:180-182 | formatting the pair values of six hex digits gives those digits in lower case |
| ColourProperties.FormatPair | src/lib.rs:181 | a channel read from two digits is written back as the same two digits in lower case |
| ColourProperties.ToHexInjective | src/colour.rs:151 | distinct colours have distinct hex codes |
| ColourProperties.RenderedErrorsKeepParse | src/colour.rs:62-66 | two inputs get the same rendered `from_hex` answer exactly when they get the same structured one |
| ColourProperties.ContrastMonotone | src/colour.rs:134-137 | a colour at least as light in every channel as one with a black contrast also gets black |
| ColourProperties.ContrastAlternates | src/lib.rs:171-178 | the contrast of the contrast is the other of black and white; the crate does not promise this, it follows from black and white lying on opposite sides of the threshold |
| WasmApi.JsError | src/lib.rs:22-45 | an error becomes a JavaScript string; its text starts with `Invalid: ` exactly for the three input-validation variants, and is the fixed canvas message exactly for `CanvasError` |
| WasmApi.JsErrorInjectiveApartFromNames | src/lib.rs:24-42 | two errors, neither an `InvalidColourName`, that become the same JavaScript value are the same error |
| WasmApi.FromHexJs | src/lib.rs:104-109 | the crate root's `from_hex` succeeds exactly on well-formed codes; every error is a JavaScript string starting with `Invalid: `; an input failing `is_valid_hex` gets the character message with the input verbatim |
| WasmApi.TwinsAgree | src/lib.rs:22-45 | the two copies of `from_hex` give the same colour or the same message, differing only in the error carrier |
| WasmApi.JsRoundTrip | src/lib.rs:180-182 | the crate root's `from_hex` inverts its `to_hex` |
| UnitTests.IsValidHexSixChar | src/colour.rs:301-304 | `"d3d09f"` is a valid hex code |
| UnitTests.IsValidHexThreeChar | src/colour.rs:306-309 | `"fea"` is a valid hex code |
| UnitTests.IsValidHexSixCharWithPrefix | src/colour.rs:311-314 | `"#f34a23"` is a valid hex code |
| UnitTests.IsValidHexThreeCharWithPrefix | src/colour.rs:316-319 | `"#a4d"` is a valid hex code |
| UnitTests.IsValidHexRejectsExamples | src/colour.rs:321-344 | `"dkl"`, `"#9x2"`, `"dkldsa"`, `"#9x2444"` and `"fdsfdsfrtre"` are not valid hex codes |
| UnitTests.IsValidHexRejectsDegenerate | src/colour.rs:258-260 | the empty string, a lone `#` and a lone `+` are not valid hex codes |
| UnitTests.IsValidHexIgnoresLength | src/colour.rs:257-267 | `"abcde"` and `"##abc"` are valid hex codes, since neither length nor the number of `#`s is checked |
| UnitTests.IsValidHexRejectsOverflow | src/colour.rs:266 | `"fffffffff"` is not a valid hex code, since its value overflows a `u32` |
| UnitTests.ParseHexSixChar | src/colour.rs:350-360 | `"F43C8E"` parses to (244, 60, 142) |
| UnitTests.ParseHexThreeChar | src/colour.rs:362-372 | `"d15"` parses to (221, 17, 85) |
| UnitTests.ParseHexInvalidChar | src/colour.rs:374-382 | `"F43C8X"` fails with the character error carrying `"F43C8X"`, rendered as its message |
| UnitTests.ParseHexInvalidLength | src/colour.rs:384-390 | `"F43C"` fails with the length error for 4, rendered as its message |
| UnitTests.HashPrefixedThreeDigits | src/colour.rs:68 | `"#abc"` fails with the length error for 4 |
| UnitTests.HashPrefixedSixDigits | src/lib.rs:111 | `"#f34a23"`, which `is_valid_hex` accepts, fails with the length error for 7 |
| UnitTests.HashPrefixedSixChar | src/colour.rs:78-90 | `"#abcde"` fails with a character error carrying `"#abcde"` |
| UnitTests.HashPrefixedThreeChar | src/colour.rs:69-77 | `"#ab"` fails with a character error carrying the doubled `"##aabb"` |
| UnitTests.InvalidThreeCharReportsInput | src/colour.rs:62-65 | `"dkl"` fails the validity gate and its character error carries `"dkl"` itself, not the doubled form |
| UnitTests.PlusPrefixedThreeChar | src/colour.rs:69-77 | `"+ab"` passes the gate, is doubled to `"++aabb"`, and fails with a character error carrying `"++aabb"` |
| UnitTests.EmptyIsCharacterError | src/colour.rs:62-65 | the empty string fails with the character error carrying `""`, not a length error |
| UnitTests.PlusPrefixedSixChar | src/colour.rs:280-282 | `"+abcde"` parses to (10, 188, 222) |
| UnitTests.ContrastDarkColour | src/colour.rs:524-534 | the contrast of `"054"` is white |
| UnitTests.ContrastLightColour | src/colour.rs:536-546 | the contrast of `"f54"` is black |

## Left out

- `to_hsl`, `to_lab` and the conversions into `HslColour` and `LabColour`
  (src/colour.rs:13-50, 154-248; src/lib.rs:184-278) are left out. They are
  `f32` arithmetic with `powf`, rounding and a 0.001 tie tolerance.
  `HslConversionError` is modelled only as an error variant and its message.
- `src/comparison.rs` and its twin in `src/lib.rs` are left out. The distances
  and percentages are `f32` square roots and powers.
- `from_colour_name` and `is_valid_colour_name` are left out. They call the
  browser DOM and a canvas through `web_sys`. `is_valid_colour` takes the
  host's colour-name check as a function parameter, so only the check's answer
  or error is modelled. `CanvasError` is modelled only as an error variant and
  its message.
- The `wasm_bindgen` attributes, the `wee_alloc` allocator, the `println!`
  debug output and the `(f32, f32, f32)` tuple conversions are left out. They
  are binding and runtime glue with no effect on the results.
- `tests/web.rs` is not part of this model. It calls functions and error
  variants that do not exist in the crate's sources.
- Radix.ParseUnsignedHex: every `ParseIntError` kind (empty, invalid digit,
  overflow) becomes `None`, because the crate only asks whether parsing
  succeeded.
- ErrorCodes.Message: `InvalidHexLength` carries a `nat` rather than a
  `usize`. No string is long enough for the difference to matter.
