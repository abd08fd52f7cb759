/** The manual (all-decimal) setup code generator: packs the custom-flow
    flag, the setup PIN code and the discriminator of a commissioning
    payload into one 32-bit "short representation", prints it zero-padded
    to a fixed number of digits and, when the payload requires custom
    flow, appends the zero-padded vendor and product identifiers. */
module ManualSetupPayloadGenerator {
  import opened DecimalString
  import opened Uint32Bits

  datatype Option<T> = None | Some(value: T)

  /** The commissioning fields the manual code carries. The numeric
      fields are unsigned and at most 32 bits wide. */
  datatype SetupPayload = SetupPayload(
    requiresCustomFlow: bool,
    setUpPINCode: uint32,
    discriminator: uint32,
    vendorID: uint32,
    productID: uint32)

  /** The layout constants: the bit widths of the PIN and discriminator
      fields of the short representation and the digit counts of the three
      decimal groups (kSetupPINCodeFieldLengthInBits, the discriminator
      field width, kManualSetupShortCodeCharLength,
      kManualSetupVendorIdCharLength, kManualSetupProductIdCharLength). */
  datatype Layout = Layout(
    setupPINCodeFieldLengthInBits: nat,
    discriminatorFieldLengthInBits: nat,
    shortCodeCharLength: nat,
    vendorIdCharLength: nat,
    productIdCharLength: nat)

  datatype ChipError = ChipNoError | ChipErrorInvalidArgument

  /** The discriminator is shifted by 1 + the PIN width, and a 32-bit
      shift is only defined for amounts below 32. */
  predicate ShiftsDefined(layout: Layout) {
    1 + layout.setupPINCodeFieldLengthInBits < 32
  }

  /** The flag bit and both fields fit side by side in 32 bits. */
  predicate FieldsFit(layout: Layout) {
    ShiftsDefined(layout)
    && 1 + layout.setupPINCodeFieldLengthInBits + layout.discriminatorFieldLengthInBits <= 32
  }

  /** The three decimal groups have at least one digit each. */
  predicate GroupsNonEmpty(layout: Layout) {
    layout.shortCodeCharLength >= 1 && layout.vendorIdCharLength >= 1 && layout.productIdCharLength >= 1
  }

  /** `x` has no bit set at position `width` or above. */
  predicate FitsIn(x: nat, width: nat) {
    x < Pow2(width)
  }

  function Flag(requiresCustomFlow: bool): uint32 {
    if requiresCustomFlow then 1 else 0
  }

  /** The bit-packed short representation: bit 0 is the custom-flow flag,
      the PIN code starts at bit 1 and the discriminator at bit
      1 + PIN width. Shifts and ORs are on 32 bits, so bits shifted past
      bit 31 are lost and overlapping fields are merged. */
  function ShortPayloadRepresentation(layout: Layout, payload: SetupPayload): (r: uint32)
    requires ShiftsDefined(layout)
    ensures FieldsFit(layout)
      && FitsIn(payload.setUpPINCode, layout.setupPINCodeFieldLengthInBits)
      && FitsIn(payload.discriminator, layout.discriminatorFieldLengthInBits)
      ==> FitsIn(r, 1 + layout.setupPINCodeFieldLengthInBits + layout.discriminatorFieldLengthInBits)
  {
    PackedWidth(layout.setupPINCodeFieldLengthInBits, layout.discriminatorFieldLengthInBits,
      Flag(payload.requiresCustomFlow), payload.setUpPINCode, payload.discriminator);
    var offset := 1;
    var result := Flag(payload.requiresCustomFlow);
    var result := Or32(result, ShiftLeft(payload.setUpPINCode, offset));
    var offset := offset + layout.setupPINCodeFieldLengthInBits;
    Or32(result, ShiftLeft(payload.discriminator, offset))
  }

  /** Fields within their widths pack into the low 1 + w + wd bits. */
  lemma PackedWidth(w: nat, wd: nat, flag: uint32, pin: uint32, disc: uint32)
    requires 1 + w < 32 && flag <= 1
    ensures 1 + w + wd <= 32 && pin < Pow2(w) && disc < Pow2(wd)
      ==> Or32(Or32(flag, ShiftLeft(pin, 1)), ShiftLeft(disc, 1 + w)) < Pow2(1 + w + wd)
  {
    var n := 1 + w + wd;
    if n <= 32 && pin < Pow2(w) && disc < Pow2(wd) {
      var low := Or(flag, ShiftLeft(pin, 1));
      FlagAndPINCode(w, flag, pin);
      Pow2Monotone(1 + w, n);
      var high := ShiftLeft(disc, 1 + w);
      assert high < Pow2(n) by {
        Pow2Monotone(wd, 32 - (1 + w));
        ShiftLeftNoWrap(disc, 1 + w);
        MulBound(disc, Pow2(wd), Pow2(1 + w));
        Pow2Add(wd, 1 + w);
      }
      OrBound(low, high, n);
    }
  }

  // The field readers of a decoder that follows the same layout.

  function CustomFlowBit(short: uint32): bool {
    short % 2 == 1
  }

  function PINCodeField(layout: Layout, short: uint32): uint32 {
    DivModAtMost(short, 2);
    DivModAtMost(short / 2, Pow2(layout.setupPINCodeFieldLengthInBits));
    (short / 2) % Pow2(layout.setupPINCodeFieldLengthInBits)
  }

  function DiscriminatorField(layout: Layout, short: uint32): uint32 {
    DivModAtMost(short, Pow2(1 + layout.setupPINCodeFieldLengthInBits));
    short / Pow2(1 + layout.setupPINCodeFieldLengthInBits)
  }

  /** A multiple of 2^k, k at least 1, is even. */
  lemma MultipleOfPow2IsEven(x: nat, k: nat)
    requires k >= 1 && x == (x / Pow2(k)) * Pow2(k)
    ensures x % 2 == 0
  {
    var c := (x / Pow2(k)) * Pow2(k - 1);
    assert x == c * 2;
    DivModUnique(c, 0, 2);
  }

  /** Bit 0 of the short representation is set exactly when the payload
      requires custom flow, whatever the other fields hold: both shifted
      fields have bit 0 clear. */
  lemma CustomFlowBitIsFlag(layout: Layout, payload: SetupPayload)
    requires ShiftsDefined(layout)
    ensures CustomFlowBit(ShortPayloadRepresentation(layout, payload)) == payload.requiresCustomFlow
  {
    var offset := 1 + layout.setupPINCodeFieldLengthInBits;
    var pinBits := ShiftLeft(payload.setUpPINCode, 1);
    var discriminatorBits := ShiftLeft(payload.discriminator, offset);
    ShiftLeftClearsLowBits(payload.setUpPINCode, 1);
    ShiftLeftClearsLowBits(payload.discriminator, offset);
    MultipleOfPow2IsEven(pinBits, 1);
    MultipleOfPow2IsEven(discriminatorBits, offset);
    var low := Or(Flag(payload.requiresCustomFlow), pinBits);
    OrLowBit(Flag(payload.requiresCustomFlow), pinBits);
    OrLowBit(low, discriminatorBits);
  }

  /** The flag and the shifted PIN code occupy disjoint bits: together
      they are the flag plus twice the PIN code, below 2^(1 + PIN width). */
  lemma FlagAndPINCode(w: nat, flag: uint32, pin: uint32)
    requires 1 + w < 32 && flag <= 1 && pin < Pow2(w)
    ensures Or(flag, ShiftLeft(pin, 1)) == 2 * pin + flag
    ensures 2 * pin + flag < Pow2(1 + w)
  {
    Pow2Monotone(w, 31);
    ShiftLeftNoWrap(pin, 1);
    OrCommutes(flag, pin * 2);
    OrDisjoint(pin, 1, flag);
  }

  /** The short representation as two ORs of unbounded numbers. */
  lemma ShortIsOr(layout: Layout, payload: SetupPayload)
    requires ShiftsDefined(layout)
    ensures ShortPayloadRepresentation(layout, payload)
      == Or(Or(Flag(payload.requiresCustomFlow), ShiftLeft(payload.setUpPINCode, 1)),
            ShiftLeft(payload.discriminator, 1 + layout.setupPINCodeFieldLengthInBits))
  {
  }

  /** With a PIN code that fits its width, the short representation is the
      flag plus twice the PIN code plus the shifted discriminator: the
      fields occupy disjoint bits, so OR is addition. */
  lemma ShortRepresentationSum(layout: Layout, payload: SetupPayload)
    requires ShiftsDefined(layout)
    requires FitsIn(payload.setUpPINCode, layout.setupPINCodeFieldLengthInBits)
    ensures ShortPayloadRepresentation(layout, payload)
      == ShiftLeft(payload.discriminator, 1 + layout.setupPINCodeFieldLengthInBits)
       + 2 * payload.setUpPINCode + Flag(payload.requiresCustomFlow)
  {
    var offset := 1 + layout.setupPINCodeFieldLengthInBits;
    var flag := Flag(payload.requiresCustomFlow);
    var pinBits := ShiftLeft(payload.setUpPINCode, 1);
    var high := ShiftLeft(payload.discriminator, offset);
    ShortIsOr(layout, payload);
    FlagAndPINCode(layout.setupPINCodeFieldLengthInBits, flag, payload.setUpPINCode);
    ShiftLeftClearsLowBits(payload.discriminator, offset);
    CombineFields(Or(flag, pinBits), 2 * payload.setUpPINCode + flag, high, offset);
  }

  /** A value below 2^k OR-ed with a multiple of 2^k is their sum. */
  lemma CombineFields(lowOr: nat, low: nat, high: nat, k: nat)
    requires lowOr == low && low < Pow2(k) && high == (high / Pow2(k)) * Pow2(k)
    ensures Or(lowOr, high) == high + low
  {
    OrCommutes(low, high);
    OrDisjoint(high / Pow2(k), k, low);
  }

  /** A PIN code that fits its field is read back from the short
      representation whatever the discriminator is: the discriminator is
      shifted clear of the PIN field and the flag sits below it. */
  lemma PINCodeRecovered(layout: Layout, payload: SetupPayload)
    requires ShiftsDefined(layout)
    requires FitsIn(payload.setUpPINCode, layout.setupPINCodeFieldLengthInBits)
    ensures PINCodeField(layout, ShortPayloadRepresentation(layout, payload)) == payload.setUpPINCode
  {
    var w := layout.setupPINCodeFieldLengthInBits;
    var short := ShortPayloadRepresentation(layout, payload);
    var high := ShiftLeft(payload.discriminator, 1 + w);
    ShortRepresentationSum(layout, payload);
    ShiftLeftClearsLowBits(payload.discriminator, 1 + w);
    assert Pow2(1 + w) == 2 * Pow2(w);
    UnpackLowField(short, high / Pow2(1 + w), Pow2(w), payload.setUpPINCode, Flag(payload.requiresCustomFlow));
  }

  /** Below a multiple of 2p sit twice a value under p and a flag bit:
      halving and reducing modulo p gives the value back. */
  lemma UnpackLowField(short: nat, m: nat, p: nat, value: nat, flag: nat)
    requires value < p && flag <= 1
    requires short == m * (2 * p) + 2 * value + flag
    ensures (short / 2) % p == value
  {
    MulAssoc(m, 2, p);
    var half := m * p + value;
    assert short == half * 2 + flag;
    DivModUnique(half, flag, 2);
    DivModUnique(m, value, p);
  }

  /** With the PIN code and the discriminator within their widths and the
      three fields fitting in 32 bits, all three are read back from the
      short representation. */
  lemma ShortRepresentationRoundTrip(layout: Layout, payload: SetupPayload)
    requires FieldsFit(layout)
    requires FitsIn(payload.setUpPINCode, layout.setupPINCodeFieldLengthInBits)
    requires FitsIn(payload.discriminator, layout.discriminatorFieldLengthInBits)
    ensures var short := ShortPayloadRepresentation(layout, payload);
      && CustomFlowBit(short) == payload.requiresCustomFlow
      && PINCodeField(layout, short) == payload.setUpPINCode
      && DiscriminatorField(layout, short) == payload.discriminator
  {
    var w, d := layout.setupPINCodeFieldLengthInBits, layout.discriminatorFieldLengthInBits;
    CustomFlowBitIsFlag(layout, payload);
    PINCodeRecovered(layout, payload);
    ShortRepresentationSum(layout, payload);
    Pow2Monotone(d, 32 - (1 + w));
    ShiftLeftNoWrap(payload.discriminator, 1 + w);
    var low := 2 * payload.setUpPINCode + Flag(payload.requiresCustomFlow);
    assert Pow2(1 + w) == 2 * Pow2(w);
    DivModUnique(payload.discriminator, low, Pow2(1 + w));
  }

  /** The complete manual code of a payload: the short representation as
      `shortCodeCharLength` zero-padded digits, followed, with custom
      flow, by the vendor and product identifiers as zero-padded groups
      of `vendorIdCharLength` and `productIdCharLength` digits, with no
      separators. */
  function ManualCode(layout: Layout, payload: SetupPayload): (code: string)
    requires ShiftsDefined(layout)
    ensures IsDecimal(code)
    ensures |code| == Max(layout.shortCodeCharLength, Digits(ShortPayloadRepresentation(layout, payload)))
      + (if payload.requiresCustomFlow
         then Max(layout.vendorIdCharLength, Digits(payload.vendorID))
           + Max(layout.productIdCharLength, Digits(payload.productID))
         else 0)
  {
    var shortCode := DecimalStringWithPadding(ShortPayloadRepresentation(layout, payload), layout.shortCodeCharLength);
    if payload.requiresCustomFlow then
      shortCode
        + DecimalStringWithPadding(payload.vendorID, layout.vendorIdCharLength)
        + DecimalStringWithPadding(payload.productID, layout.productIdCharLength)
    else
      shortCode
  }

  /** The values a manual code can carry: vendor and product identifiers
      travel only with custom flow. */
  function Carried(payload: SetupPayload): SetupPayload {
    if payload.requiresCustomFlow then payload
    else payload.(vendorID := 0, productID := 0)
  }

  /** The three fields of a short representation, as a payload whose
      vendor and product identifiers are not yet known. */
  function UnpackShort(layout: Layout, short: uint32): SetupPayload {
    SetupPayload(CustomFlowBit(short), PINCodeField(layout, short), DiscriminatorField(layout, short), 0, 0)
  }

  /** Reads a 32-bit number from a group of digits, if it is in range. */
  function ReadUint32(group: string): Option<uint32>
    requires IsDecimal(group)
  {
    if Value(group) < UINT32_LIMIT then Some(Value(group)) else None
  }

  /** A decoder for manual codes laid out by `layout`: it reads the short
      group, unpacks flag, PIN code and discriminator, and, when the flag
      says custom flow, the vendor and product groups. Anything else
      (non-digits, a wrong length, a group over 32 bits) is rejected. */
  function DecodeManualCode(layout: Layout, code: string): Option<SetupPayload>
    requires ShiftsDefined(layout)
  {
    var ls, lv, lp := layout.shortCodeCharLength, layout.vendorIdCharLength, layout.productIdCharLength;
    if !IsDecimal(code) || |code| < ls then None
    else
      match ReadUint32(code[..ls])
      case None => None
      case Some(short) =>
        var fields := UnpackShort(layout, short);
        if !fields.requiresCustomFlow then
          if |code| == ls then Some(fields) else None
        else if |code| != ls + lv + lp then None
        else
          match (ReadUint32(code[ls..ls + lv]), ReadUint32(code[ls + lv..]))
          case (Some(vendor), Some(product)) => Some(fields.(vendorID := vendor, productID := product))
          case _ => None
  }

  /** Reading back one padded group gives the 32-bit number it spells. */
  lemma GroupRoundTrip(x: uint32, width: nat)
    ensures IsDecimal(DecimalStringWithPadding(x, width))
    ensures ReadUint32(DecimalStringWithPadding(x, width)) == Some(x)
  {
    PaddingRoundTrip(x, width);
  }

  /** Decoding the short group alone, when it unpacks to a payload
      without custom flow. */
  lemma DecodeShortGroup(layout: Layout, shortCode: string, short: uint32)
    requires ShiftsDefined(layout)
    requires IsDecimal(shortCode) && |shortCode| == layout.shortCodeCharLength
    requires ReadUint32(shortCode) == Some(short)
    requires !UnpackShort(layout, short).requiresCustomFlow
    ensures DecodeManualCode(layout, shortCode) == Some(UnpackShort(layout, short))
  {
    assert shortCode[..layout.shortCodeCharLength] == shortCode;
  }

  /** Decoding three concatenated groups, when the first unpacks to a
      payload with custom flow. */
  lemma DecodeThreeGroups(layout: Layout, shortCode: string, vendorCode: string, productCode: string,
                          short: uint32, vendor: uint32, product: uint32)
    requires ShiftsDefined(layout)
    requires IsDecimal(shortCode) && |shortCode| == layout.shortCodeCharLength
    requires IsDecimal(vendorCode) && |vendorCode| == layout.vendorIdCharLength
    requires IsDecimal(productCode) && |productCode| == layout.productIdCharLength
    requires ReadUint32(shortCode) == Some(short)
    requires ReadUint32(vendorCode) == Some(vendor)
    requires ReadUint32(productCode) == Some(product)
    requires UnpackShort(layout, short).requiresCustomFlow
    ensures DecodeManualCode(layout, shortCode + vendorCode + productCode)
      == Some(UnpackShort(layout, short).(vendorID := vendor, productID := product))
  {
    var code := shortCode + vendorCode + productCode;
    var ls, lv := |shortCode|, |vendorCode|;
    assert IsDecimal(code);
    assert code[..ls] == shortCode;
    assert code[ls..ls + lv] == vendorCode;
    assert code[ls + lv..] == productCode;
  }

  /** When the layout's fields fit in 32 bits, the PIN code and the
      discriminator fit their widths and every group fits its digit
      count, decoding the manual code gives back every value it carries. */
  lemma ManualCodeRoundTrip(layout: Layout, payload: SetupPayload)
    requires FieldsFit(layout) && GroupsNonEmpty(layout)
    requires FitsIn(payload.setUpPINCode, layout.setupPINCodeFieldLengthInBits)
    requires FitsIn(payload.discriminator, layout.discriminatorFieldLengthInBits)
    requires ShortPayloadRepresentation(layout, payload) < Pow10(layout.shortCodeCharLength)
    requires payload.requiresCustomFlow ==>
      payload.vendorID < Pow10(layout.vendorIdCharLength)
      && payload.productID < Pow10(layout.productIdCharLength)
    ensures DecodeManualCode(layout, ManualCode(layout, payload)) == Some(Carried(payload))
  {
    var ls, lv, lp := layout.shortCodeCharLength, layout.vendorIdCharLength, layout.productIdCharLength;
    var short := ShortPayloadRepresentation(layout, payload);
    var shortCode := DecimalStringWithPadding(short, ls);
    PaddedLength(short, ls);
    GroupRoundTrip(short, ls);
    assert UnpackShort(layout, short) == payload.(vendorID := 0, productID := 0) by {
      ShortRepresentationRoundTrip(layout, payload);
    }
    if payload.requiresCustomFlow {
      PaddedLength(payload.vendorID, lv);
      PaddedLength(payload.productID, lp);
      GroupRoundTrip(payload.vendorID, lv);
      GroupRoundTrip(payload.productID, lp);
      DecodeThreeGroups(layout, shortCode, DecimalStringWithPadding(payload.vendorID, lv),
                        DecimalStringWithPadding(payload.productID, lp), short, payload.vendorID, payload.productID);
    } else {
      DecodeShortGroup(layout, shortCode, short);
    }
  }

  /** When every group fits its digit count, the manual code has exactly
      `shortCodeCharLength` digits, plus `vendorIdCharLength` +
      `productIdCharLength` with custom flow. */
  lemma ManualCodeLength(layout: Layout, payload: SetupPayload)
    requires ShiftsDefined(layout) && GroupsNonEmpty(layout)
    requires ShortPayloadRepresentation(layout, payload) < Pow10(layout.shortCodeCharLength)
    requires payload.requiresCustomFlow ==>
      payload.vendorID < Pow10(layout.vendorIdCharLength)
      && payload.productID < Pow10(layout.productIdCharLength)
    ensures |ManualCode(layout, payload)| == layout.shortCodeCharLength
      + (if payload.requiresCustomFlow then layout.vendorIdCharLength + layout.productIdCharLength else 0)
  {
    DigitsBound(ShortPayloadRepresentation(layout, payload), layout.shortCodeCharLength);
    if payload.requiresCustomFlow {
      DigitsBound(payload.vendorID, layout.vendorIdCharLength);
      DigitsBound(payload.productID, layout.productIdCharLength);
    }
  }

  /** A short representation is a 32-bit value, so it has at most ten
      decimal digits: with a short group of ten or more digits it always
      fills the group exactly, whatever the payload. */
  lemma ShortGroupAlwaysFits(layout: Layout, payload: SetupPayload)
    requires ShiftsDefined(layout) && layout.shortCodeCharLength >= 10
    ensures |DecimalStringWithPadding(ShortPayloadRepresentation(layout, payload), layout.shortCodeCharLength)|
      == layout.shortCodeCharLength
  {
    Uint32Digits(ShortPayloadRepresentation(layout, payload));
  }

  /** The generator object: it holds the payload it encodes. */
  class ManualSetupPayloadGenerator {
    const mSetupPayload: SetupPayload

    constructor(setupPayload: SetupPayload)
      ensures mSetupPayload == setupPayload
    {
      mSetupPayload := setupPayload;
    }

    /** Encodes `mSetupPayload`. `isValidManualCode` is the payload's own
        validity check; `outDecimalString` is the caller's string, and the
        second result is its value after the call: it is replaced by the
        manual code on success and left as it was on failure. */
    method PayloadDecimalStringRepresentation(
      layout: Layout,
      isValidManualCode: SetupPayload -> bool,
      outDecimalString: string)
      returns (err: ChipError, newOutDecimalString: string)
      requires ShiftsDefined(layout)
      ensures err == ChipErrorInvalidArgument <==> !isValidManualCode(mSetupPayload)
      ensures err == ChipErrorInvalidArgument ==> newOutDecimalString == outDecimalString
      ensures err == ChipNoError ==> newOutDecimalString == ManualCode(layout, mSetupPayload)
      ensures err == ChipNoError && !mSetupPayload.requiresCustomFlow ==>
        newOutDecimalString
          == DecimalStringWithPadding(ShortPayloadRepresentation(layout, mSetupPayload), layout.shortCodeCharLength)
      ensures err == ChipNoError && mSetupPayload.requiresCustomFlow ==>
        newOutDecimalString
          == DecimalStringWithPadding(ShortPayloadRepresentation(layout, mSetupPayload), layout.shortCodeCharLength)
           + DecimalStringWithPadding(mSetupPayload.vendorID, layout.vendorIdCharLength)
           + DecimalStringWithPadding(mSetupPayload.productID, layout.productIdCharLength)
    {
      if !isValidManualCode(mSetupPayload) {
        return ChipErrorInvalidArgument, outDecimalString;
      }

      var shortDecimal := ShortPayloadRepresentation(layout, mSetupPayload);
      var decimalString := DecimalStringWithPadding(shortDecimal, layout.shortCodeCharLength);

      if mSetupPayload.requiresCustomFlow {
        decimalString := decimalString + DecimalStringWithPadding(mSetupPayload.vendorID, layout.vendorIdCharLength);
        decimalString := decimalString + DecimalStringWithPadding(mSetupPayload.productID, layout.productIdCharLength);
      }
      return ChipNoError, decimalString;
    }
  }
}
