# Manual setup code generator — a Dafny model

This project models the manual setup-code encoder of the CHIP commissioning
code. A commissioning `SetupPayload` has five fields: a custom-flow flag, a
setup PIN code, a discriminator, a vendor ID and a product ID. The encoder
turns it into an all-decimal code that a person can type. It works in three
steps:

1. It bit-packs the flag (bit 0), the PIN code (from bit 1) and the
   discriminator (from bit 1 + PIN width) into one 32-bit "short
   representation", using `uint32_t` shifts and ORs.
2. It prints that value with `%0*u`, zero-padded to the short-code digit
   count.
3. If the payload requires custom flow, it appends the vendor ID and the
   product ID. Each is zero-padded to its own digit count, with no
   separators.

A payload that fails its validity check gets `CHIP_ERROR_INVALID_ARGUMENT`,
and the caller's output string is left untouched. This early format has no
check digit.

Files:

- `uint32_bits.dfy` (module `Uint32Bits`): 32-bit unsigned arithmetic. A
  value is a natural number below 2^32. A left shift multiplies by 2^k and
  reduces mod 2^32. `|` is bitwise OR, defined one bit at a time. The lemmas
  cover disjoint ORs, bounds, and what a shift clears or keeps.
- `decimal_string.dfy` (module `DecimalString`): the `%u` and `%0*u`
  renderings, reading a digit string back into a number, and the byte count
  of the source's `sprintf` buffer.
- `manual_setup_payload_generator.dfy` (module
  `ManualSetupPayloadGenerator`): the payload, the layout constants, the
  short representation, the full manual code, and the generator class with
  its `PayloadDecimalStringRepresentation` method. It also defines a decoder
  that follows the same layout. This decoder is the reference that the
  round-trip lemmas are stated against.
- `manual_code_examples.dfy` (module `ManualCodeExamples`): worked instances
  with a 27-bit PIN field and a 12-bit discriminator field. These need
  1 + 27 + 12 = 40 bits, so the discriminator 3840 is shifted out entirely
  and reads back as 0. This shows that the `FieldsFit` hypothesis of the
  recovery lemmas is really needed.

The numeric constants (`kSetupPINCodeFieldLengthInBits`, the discriminator
width, and `kManualSetup{ShortCode,VendorId,ProductId}CharLength`) are defined
in headers that are not part of this model. They appear as the fields of a
`Layout` value. Every lemma states the hypotheses it needs about them:

- `ShiftsDefined`: the discriminator's shift amount is below 32.
- `FieldsFit`: the flag, the PIN field and the discriminator field fit
  side by side in 32 bits.
- `GroupsNonEmpty`: each digit group is at least one digit wide.

The body of `SetupPayload::isValidManualCode()` is not part of this model
either. The method takes it as a parameter, `isValidManualCode`.

Three properties of the code shape the model:

- The encoder itself does not validate. Whether a field fits its bit width
  or digit count is left to `isValidManualCode()`.
- A value with more digits than its group is printed in full, not
  truncated. The code is then longer than the fixed length.
- With a 27-bit PIN field and a 12-bit discriminator field
  (1 + 27 + 12 = 40 bits), the discriminator is shifted by 28 and only
  its low 4 bits remain. 3840 = 0xF00 has none of those bits set, so it is
  lost entirely (see `ManualCodeExamples`).

## Model

| member | source | states |
|---|---|---|
| `Uint32Bits.ShiftLeft` | src/setup_payload/ManualSetupPayloadGenerator.cpp:32-35 | a 32-bit `x << k` (k below 32) keeps the low 32 - k bits of x, moved up k places: it equals (x mod 2^(32-k)) · 2^k |
| `Uint32Bits.Or32` | src/setup_payload/ManualSetupPayloadGenerator.cpp:32-35 | the 32-bit `a \| b` is at least each operand and at most their sum, and has bit 0 set exactly when either operand has it |
| `Uint32Bits.ShiftLeftClearsLowBits` | src/setup_payload/ManualSetupPayloadGenerator.cpp:32-35 | a 32-bit `x << k` is a multiple of 2^k whatever x is, so a shifted field never touches the bits below its offset |
| `Uint32Bits.ShiftLeftNoWrap` | src/setup_payload/ManualSetupPayloadGenerator.cpp:32-35 | a 32-bit `x << k` loses nothing (it equals x · 2^k) when x < 2^(32-k) |
| `Uint32Bits.OrDisjoint` | src/setup_payload/ManualSetupPayloadGenerator.cpp:32-35 | OR of a multiple of 2^k with a number below 2^k is their sum: fields in disjoint bits do not interfere |
| `Uint32Bits.OrBound` | src/setup_payload/ManualSetupPayloadGenerator.cpp:31-36 | OR of two numbers below 2^n stays below 2^n, so the packed result is a `uint32_t` |
| `Uint32Bits.OrCommutes` | src/setup_payload/ManualSetupPayloadGenerator.cpp:32-35 | bitwise OR is commutative |
| `DecimalString.ToDecimal` | src/setup_payload/ManualSetupPayloadGenerator.cpp:42 | the `%u` spelling has exactly `Digits(n)` characters, all '0'..'9', with a leading '0' only for zero |
| `DecimalString.DecimalStringWithPadding` | src/setup_payload/ManualSetupPayloadGenerator.cpp:39-44 | the `%0*u` spelling is all digits, has length max(minLength, Digits(n)), begins with only '0's as padding and ends with the `%u` spelling of n |
| `DecimalString.ToDecimalRoundTrip` | src/setup_payload/ManualSetupPayloadGenerator.cpp:42 | reading the `%u` spelling of n back as a decimal number gives n |
| `DecimalString.LeadingZerosValue` | src/setup_payload/ManualSetupPayloadGenerator.cpp:42 | leading '0's do not change the number a digit string spells |
| `DecimalString.PaddingRoundTrip` | src/setup_payload/ManualSetupPayloadGenerator.cpp:39-44 | reading the zero-padded spelling back gives the number: padding neither adds value nor truncates |
| `DecimalString.DigitsBound` | src/setup_payload/ManualSetupPayloadGenerator.cpp:42 | a number has at most w digits (w ≥ 1) if and only if it is below 10^w |
| `DecimalString.PaddedLength` | src/setup_payload/ManualSetupPayloadGenerator.cpp:39-44 | a number below 10^L is rendered in exactly L characters |
| `DecimalString.SourceBufferOverrun` | src/setup_payload/ManualSetupPayloadGenerator.cpp:41-42 | `sprintf` stores more bytes than the `minLength`-byte buffer holds: one more when the number fits, and one more per extra digit otherwise |
| `ManualSetupPayloadGenerator.ShortPayloadRepresentation` | src/setup_payload/ManualSetupPayloadGenerator.cpp:28-37 | when the fields fit 32 bits side by side and each value fits its field, the packed value uses only the low 1 + W_pin + W_disc bits. Its field layout is stated by `CustomFlowBitIsFlag`, `ShortRepresentationSum` and `ShortRepresentationRoundTrip` |
| `ManualSetupPayloadGenerator.CustomFlowBitIsFlag` | src/setup_payload/ManualSetupPayloadGenerator.cpp:30-35 | bit 0 of the short representation is 1 exactly when `requiresCustomFlow` holds, for every PIN code and discriminator |
| `ManualSetupPayloadGenerator.ShortRepresentationSum` | src/setup_payload/ManualSetupPayloadGenerator.cpp:28-37 | with a PIN code below 2^W_pin, the short representation is flag + 2·PIN + (discriminator << (1 + W_pin)) mod 2^32: the flag and the PIN field do not overlap |
| `ManualSetupPayloadGenerator.PINCodeRecovered` | src/setup_payload/ManualSetupPayloadGenerator.cpp:30-35 | a PIN code below 2^W_pin is read back as (short >> 1) mod 2^W_pin, whatever the discriminator |
| `ManualSetupPayloadGenerator.ShortRepresentationRoundTrip` | src/setup_payload/ManualSetupPayloadGenerator.cpp:28-37 | with both fields within their widths and 1 + W_pin + W_disc ≤ 32, flag, PIN code and discriminator (short >> (1 + W_pin)) are all recovered |
| `ManualSetupPayloadGenerator.ManualCode` | src/setup_payload/ManualSetupPayloadGenerator.cpp:54-61 | the manual code is all digits, and its length is the short group's padded length plus, with custom flow only, the vendor and product groups' padded lengths |
| `ManualSetupPayloadGenerator.GroupRoundTrip` | src/setup_payload/ManualSetupPayloadGenerator.cpp:59-60 | a zero-padded 32-bit group reads back as the same 32-bit value |
| `ManualSetupPayloadGenerator.ManualCodeRoundTrip` | src/setup_payload/ManualSetupPayloadGenerator.cpp:54-61 | when fields fit their widths and groups fit their digit counts, decoding the manual code gives back the flag, PIN code and discriminator, and, with custom flow, the vendor and product IDs in that order |
| `ManualSetupPayloadGenerator.ManualCodeLength` | src/setup_payload/ManualSetupPayloadGenerator.cpp:55-61 | when each value fits its digit count, the code is exactly L_short digits long, or L_short + L_vendor + L_product with custom flow |
| `ManualSetupPayloadGenerator.ShortGroupAlwaysFits` | src/setup_payload/ManualSetupPayloadGenerator.cpp:54-55 | a short group of at least ten digits always holds the whole 32-bit short representation, for every payload |
| `ManualSetupPayloadGenerator.ManualSetupPayloadGenerator.PayloadDecimalStringRepresentation` | src/setup_payload/ManualSetupPayloadGenerator.cpp:46-64 | returns `CHIP_ERROR_INVALID_ARGUMENT` exactly when `isValidManualCode()` fails, and then leaves the output string unchanged; otherwise returns `CHIP_NO_ERROR` with the padded short group, followed by the padded vendor and product groups if and only if custom flow is required |
| `ManualCodeExamples.WideLayoutShortRepresentation` | src/setup_payload/ManualSetupPayloadGenerator.cpp:28-37 | with a 27-bit PIN field, PIN 20202021 and discriminator 3840 pack to 40404042 (+1 with custom flow): the PIN code survives and the discriminator reads back as 0 |
| `ManualCodeExamples.WideLayoutManualCode` | src/setup_payload/ManualSetupPayloadGenerator.cpp:54-62 | without custom flow that payload's code is the 11-digit padding of 40404042 |
| `ManualCodeExamples.WideLayoutCustomFlowManualCode` | src/setup_payload/ManualSetupPayloadGenerator.cpp:54-62 | with custom flow, vendor 9050 and product 20043, the code is the 11-digit short group followed by "09050" and "20043", 21 digits in all |

## Left out

- The `fprintf(stderr, …)` diagnostic on the failure path (ManualSetupPayloadGenerator.cpp:50) is output only. It is not modelled.
- `SetupPayload::isValidManualCode()` is defined in a file that is not part of this model. The method receives it as the function parameter `isValidManualCode`. No claim is made about which payloads it accepts.
- The numeric values of the layout constants are defined in headers that are not part of this model. They are the fields of `Layout`, and each lemma states its own hypotheses about them.
- The C types of the payload fields are declared in SetupPayload.h, which is not part of this model. Every numeric field is modelled as a 32-bit unsigned value. A field narrower than 32 bits is promoted to signed `int` before the shift. Before C++20, a signed left shift whose result does not fit in the unsigned 32-bit type is undefined, which means any shift that moves set bits past bit 31. The `3840 << 28` of `ManualCodeExamples` is such a shift if the discriminator is narrower than 32 bits. For those shifts the model keeps the unsigned result: the bits past bit 31 are dropped.
- `ManualSetupPayloadGenerator.ManualSetupPayloadGenerator.PayloadDecimalStringRepresentation` requires `ShiftsDefined(layout)`. A C shift by 32 or more positions is undefined, so a layout that shifts the discriminator that far has no defined behaviour to model.
- The `std::string &` out-parameter is modelled as an input value plus the returned new value. Aliasing between the output string and the generator is not modelled.
- The constructor's body, in ManualSetupPayloadGenerator.h, is not shown. The model's constructor stores the payload.
- src/lib/core/CHIPTLVUtilities.hpp (TLV `Iterate`/`Count`/`Find`) has only declarations here. The bodies and the `TLVReader` cursor are not part of this model.
- src/lib/support/CHIPArgParser.hpp (command-line option parsing) is glue with declarations only. It is not modelled.
- src/controller/java/AndroidBleConnectionDelegate.h (Bluetooth callback bridge) is transport plumbing. It is not modelled.

## Findings

| source | as written | input that shows it | evidently intended | confidence | as-written member | corrected member |
|---|---|---|---|---|---|---|
| src/setup_payload/ManualSetupPayloadGenerator.cpp:41-42 | `char buf[minLength]` followed by `sprintf(buf, "%0*u", minLength, number)`. `sprintf` always writes at least `minLength` digits plus a NUL terminator, so it writes past the end of the array. | number 0 with minLength 1 stores 2 bytes into a 1-byte array. Every call overruns by at least one byte, and by more when the number has more than `minLength` digits. | the zero-padded decimal string itself, in a buffer of at least max(minLength, digits) + 1 bytes | high (not executed) | `DecimalString.SourceBufferOverrun` | `DecimalString.DecimalStringWithPadding` (its read-back is proved by `DecimalString.PaddingRoundTrip`) |
